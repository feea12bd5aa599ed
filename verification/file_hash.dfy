// hash_file_open of bpf/process.c: the deduplication key of an open, from PID and path.
module FileHash {
  import FileDedup

  // (hash << 5) + hash + x in 64 bits
  function HashMix(hash: nat, x: int): nat {
    (hash * 33 + x) % FileDedup.TWO_64
  }

  // A char of the path is signed.
  function HashPath(hash: nat, path: string): nat
    decreases |path|
  {
    if path == [] then hash
    else
      var byte := path[0] as int % 256;
      HashPath(HashMix(hash, if byte < 128 then byte else byte - 256), path[1..])
  }

  function HashFile(f: FileDedup.File): nat {
    HashPath(HashMix(5381, f.pid), f.path)
  }

  // ---- What the key depends on ----

  const INVERSE_OF_33 := 1117984489315730401

  lemma InverseIs()
    ensures 33 * INVERSE_OF_33 == 2 * 0x1_0000_0000_0000_0000 + 1
  {
  }

  // A char as the signed number that is added.
  function Signed(c: char): (x: int)
    ensures -128 <= x < 128 && (x - c as int) % 256 == 0
  {
    var byte := c as int % 256;
    if byte < 128 then byte else byte - 256
  }

  // With an empty path only the PID counts.
  lemma KeyOfNothing(f: FileDedup.File)
    requires f.path == ""
    ensures HashFile(f) == (5381 * 33 + f.pid) % 0x1_0000_0000_0000_0000
  {
  }

  lemma {:induction false} PathAppend(h: nat, path: string, c: char)
    ensures HashPath(h, path + [c]) == (HashPath(h, path) * 33 + Signed(c)) % 0x1_0000_0000_0000_0000
    decreases |path|
  {
    if path == [] {
      assert path + [c] == [c] && [c][1..] == [];
    } else {
      assert (path + [c])[1..] == path[1..] + [c];
      PathAppend(HashMix(h, Signed(path[0])), path[1..], c);
    }
  }

  // Every further character multiplies the key by 33 and adds the signed character.
  lemma KeyOfMore(f: FileDedup.File, c: char)
    ensures HashFile(f.(path := f.path + [c])) == (33 * HashFile(f) + Signed(c)) % 0x1_0000_0000_0000_0000
  {
    PathAppend(HashMix(5381, f.pid), f.path, c);
  }

  // 33 is odd, so mixing loses nothing of the key so far.
  lemma MixKeeps(a: nat, b: nat, x: int)
    requires a < 0x1_0000_0000_0000_0000 && b < 0x1_0000_0000_0000_0000 && HashMix(a, x) == HashMix(b, x)
    ensures a == b
  {
    var m := 0x1_0000_0000_0000_0000;
    var e := (a * 33 + x) / m - (b * 33 + x) / m;
    assert 33 * (a - b) == m * e;
    var t := INVERSE_OF_33 * e - 2 * (a - b);
    InverseIs();
    assert a - b == m * t;
  }

  // Nor does it of what is added, within one turn of 2^64.
  lemma MixTells(h: nat, x: int, y: int)
    requires x != y && -0x1_0000_0000_0000_0000 < x - y < 0x1_0000_0000_0000_0000
    ensures HashMix(h, x) != HashMix(h, y)
  {
  }

  lemma {:induction false} PathKeeps(a: nat, b: nat, path: string)
    requires a < 0x1_0000_0000_0000_0000 && b < 0x1_0000_0000_0000_0000 && a != b
    ensures HashPath(a, path) != HashPath(b, path)
    decreases |path|
  {
    if path != [] {
      var x := Signed(path[0]);
      if HashMix(a, x) == HashMix(b, x) { MixKeeps(a, b, x); }
      PathKeeps(HashMix(a, x), HashMix(b, x), path[1..]);
    }
  }

  lemma {:induction false} PathSplits(h: nat, p: string, q: string)
    ensures HashPath(h, p + q) == HashPath(HashPath(h, p), q)
    decreases |p|
  {
    if p == [] {
      assert p + q == q;
    } else {
      assert (p + q)[1..] == p[1..] + q;
      PathSplits(HashMix(h, Signed(p[0])), p[1..], q);
    }
  }

  // One path opened by two processes never shares a key.
  lemma PidsDiffer(f: FileDedup.File, g: FileDedup.File)
    requires f.path == g.path && f.pid != g.pid
    requires -0x8000_0000 <= f.pid < 0x8000_0000 && -0x8000_0000 <= g.pid < 0x8000_0000
    ensures HashFile(f) != HashFile(g)
  {
    MixTells(5381, f.pid, g.pid);
    PathKeeps(HashMix(5381, f.pid), HashMix(5381, g.pid), f.path);
  }

  // Nor do two paths of one process that differ in exactly one byte.
  lemma PathsDiffer(f: FileDedup.File, g: FileDedup.File, i: nat)
    requires f.pid == g.pid && |f.path| == |g.path| && i < |f.path|
    requires f.path[i] as int % 256 != g.path[i] as int % 256
    requires forall k :: 0 <= k < |f.path| && k != i ==> f.path[k] == g.path[k]
    ensures HashFile(f) != HashFile(g)
  {
    var h := HashMix(5381, f.pid);
    var p, q := f.path[..i], f.path[i + 1..];
    assert f.path == p + [f.path[i]] + q && g.path == p + [g.path[i]] + q;
    PathSplits(h, p + [f.path[i]], q);
    PathSplits(h, p + [g.path[i]], q);
    PathAppend(h, p, f.path[i]);
    PathAppend(h, p, g.path[i]);
    MixTells(HashPath(h, p), Signed(f.path[i]), Signed(g.path[i]));
    PathKeeps(HashPath(h, p + [f.path[i]]), HashPath(h, p + [g.path[i]]), q);
  }

  // Of a path's end only the key it starts from matters.
  lemma SameEnd(a: nat, b: nat, q: string)
    requires a < 0x1_0000_0000_0000_0000 && b < 0x1_0000_0000_0000_0000
    ensures HashPath(a, q) == HashPath(b, q) <==> a == b
  {
    if a != b { PathKeeps(a, b, q); }
  }

  // Two adjacent characters x, y after h.
  lemma MixTwo(h: nat, x: int, y: int)
    ensures HashMix(HashMix(h, x), y) == (33 * (33 * h + x) + y) % 0x1_0000_0000_0000_0000
  {
  }

  // Close numbers are equal modulo 2^64 only if they are equal.
  lemma ModTells(a: int, b: int)
    requires -0x1_0000_0000_0000_0000 < a - b < 0x1_0000_0000_0000_0000
    requires a % 0x1_0000_0000_0000_0000 == b % 0x1_0000_0000_0000_0000
    ensures a == b
  {
  }

  // Two paths of one process that differ only in two adjacent characters share a key exactly
  // when 33 times the difference of the first makes up for that of the second.
  lemma NeighboursCollideIff(f: FileDedup.File, g: FileDedup.File, p: string, q: string, x: char, y: char, u: char, v: char)
    requires f.pid == g.pid && f.path == p + [x, y] + q && g.path == p + [u, v] + q
    ensures HashFile(f) == HashFile(g) <==> 33 * (Signed(x) - Signed(u)) == Signed(v) - Signed(y)
  {
    hide HashPath, Signed;
    var h := HashMix(5381, f.pid);
    var start := HashPath(h, p);
    NeighboursKey(h, p, x, y, q);
    NeighboursKey(h, p, u, v, q);
    var a, b := 33 * (33 * start + Signed(x)) + Signed(y), 33 * (33 * start + Signed(u)) + Signed(v);
    var c, d := a % 0x1_0000_0000_0000_0000, b % 0x1_0000_0000_0000_0000;
    SameEnd(c, d, q);
    if c == d { ModTells(a, b); }
  }

  lemma NeighboursKey(h: nat, p: string, x: char, y: char, q: string)
    ensures HashPath(h, p + [x, y] + q) ==
      HashPath((33 * (33 * HashPath(h, p) + Signed(x)) + Signed(y)) % 0x1_0000_0000_0000_0000, q)
  {
    hide HashPath, Signed;
    PathSplits(h, p + [x, y], q);
    assert p + [x] + [y] == p + [x, y];
    PathAppend(h, p, x);
    PathAppend(h, p + [x], y);
    MixTwo(HashPath(h, p), Signed(x), Signed(y));
  }

  // So different files can share a key.
  lemma PathsCollide(f: FileDedup.File, p: string, q: string)
    ensures HashFile(f.(path := p + "ab" + q)) == HashFile(f.(path := p + "bA" + q))
  {
    NeighboursCollideIff(f.(path := p + "ab" + q), f.(path := p + "bA" + q), p, q, 'a', 'b', 'b', 'A');
  }
}
