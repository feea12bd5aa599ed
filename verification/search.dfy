// The linear scan that most of the tables below begin with.
module Search {

  // Index of the first element with the property, or -1.
  function FirstWhere<T(!new)>(s: seq<T>, has: T -> bool): (r: int)
    ensures -1 <= r < |s|
    ensures r >= 0 ==> has(s[r]) && forall i :: 0 <= i < r ==> !has(s[i])
    ensures r < 0 ==> forall i :: 0 <= i < |s| ==> !has(s[i])
  {
    if s == [] then -1
    else if has(s[0]) then 0
    else
      var r := FirstWhere(s[1..], has);
      assert forall i :: 1 <= i < |s| ==> s[i] == s[1..][i - 1];
      if r < 0 then -1 else r + 1
  }
}
