/** Substring search with an additive rolling hash kept in a 32-bit signed integer, over
    plain characters, which are signed. */
module Memmem {
  import opened Wrappers
  import opened Bytes

  function SignedChar(b: byte): int {
    if b < 128 then b else b - 256
  }

  function Sum(s: seq<byte>): int {
    if s == [] then 0 else Sum(s[..|s| - 1]) + SignedChar(s[|s| - 1])
  }

  /** The hash of a window. Any two equal windows have one hash. */
  function Hash(s: seq<byte>): int32 {
    ToInt32(Sum(s))
  }

  function HashAt(mem: seq<byte>, p: nat, n: nat): int32
    requires p + n <= |mem|
  {
    Hash(mem[p..p + n])
  }

  lemma WrapAdd(x: int, d: int)
    ensures ToInt32(ToInt32(x) + d) == ToInt32(x + d)
  {
    assert (ToInt32(x) - x) % 0x1_0000_0000 == 0;
    assert (ToInt32(x) + d) % 0x1_0000_0000 == (x + d) % 0x1_0000_0000;
  }

  lemma {:induction false} SumFirst(s: seq<byte>)
    requires s != []
    ensures Sum(s) == SignedChar(s[0]) + Sum(s[1..])
    decreases |s|
  {
    if |s| > 1 {
      SumFirst(s[..|s| - 1]);
      assert s[..|s| - 1][1..] == s[1..][..|s| - 2];
    }
  }

  /** Rolling: drop the first character, take in the one after the window. */
  lemma Roll(mem: seq<byte>, p: nat, n: nat)
    requires 0 < n && p + n < |mem|
    ensures ToInt32(ToInt32(HashAt(mem, p, n) - SignedChar(mem[p])) + SignedChar(mem[p + n]))
         == HashAt(mem, p + 1, n)
  {
    var w, v := mem[p..p + n], mem[p + 1..p + 1 + n];
    SumFirst(w);
    assert w[1..] == mem[p + 1..p + n] && v[..n - 1] == mem[p + 1..p + n];
    assert v[n - 1] == mem[p + n];
    WrapAdd(Sum(w), -SignedChar(mem[p]));
    WrapAdd(Sum(w) - SignedChar(mem[p]), SignedChar(mem[p + n]));
  }

  predicate OccursAt(hay: seq<byte>, needle: seq<byte>, p: nat) {
    p + |needle| <= |hay| && hay[p..p + |needle|] == needle
  }

  /** The first occurrence, or none when there is none. */
  ghost predicate FirstOccurrence(hay: seq<byte>, needle: seq<byte>, r: Option<nat>) {
    match r
    case Some(p) => OccursAt(hay, needle, p) && forall i: nat :: i < p ==> !OccursAt(hay, needle, i)
    case None => forall i: nat :: !OccursAt(hay, needle, i)
  }

  /** Searches the first `hayLen` bytes of `mem`. The last roll of the hash reads the byte
      after them. */
  method Search(mem: seq<byte>, hayLen: nat, needle: seq<byte>) returns (r: Option<nat>)
    requires hayLen <= |mem|
    requires 0 < |needle| <= hayLen ==> hayLen < |mem|
    ensures FirstOccurrence(mem[..hayLen], needle, r)
  {
    var n := |needle|;
    if hayLen < n {
      return None;
    }
    if n == 0 {
      assert mem[..hayLen][0..0] == needle;
      return Some(0);
    }
    var hash, hayHash := InitHashes(mem, needle);
    var last := hayLen - n + 1;
    var p := 0;
    while p < last
      invariant p <= last && (p < last ==> hayHash == HashAt(mem, p, n))
      invariant hash == Hash(needle)
      invariant NoneBefore(mem[..hayLen], needle, p)
    {
      OccursInMemory(mem, hayLen, needle, p);
      if hash == hayHash && mem[p] == needle[0] && mem[p..p + n] == needle {
        return Some(p);
      }
      Roll(mem, p, n);
      NoneAtNext(mem[..hayLen], needle, p);
      hayHash := ToInt32(hayHash - SignedChar(mem[p]));
      hayHash := ToInt32(hayHash + SignedChar(mem[p + n]));
      p := p + 1;
    }
    return None;
  }

  /** The hashes of the needle and of the first window. */
  method InitHashes(mem: seq<byte>, needle: seq<byte>) returns (hash: int32, hayHash: int32)
    requires |needle| <= |mem|
    ensures hash == Hash(needle) && hayHash == HashAt(mem, 0, |needle|)
  {
    var n := |needle|;
    hash, hayHash := 0, 0;
    var i := n;
    while i > 0
      invariant 0 <= i <= n && hash == Hash(needle[..n - i]) && hayHash == Hash(mem[..n - i])
    {
      var k := n - i;
      HashNext(needle, k);
      HashNext(mem, k);
      hash := ToInt32(hash + SignedChar(needle[k]));
      hayHash := ToInt32(hayHash + SignedChar(mem[k]));
      i := i - 1;
    }
    assert needle[..n] == needle && mem[..n] == mem[0..n];
  }

  ghost predicate NoneBefore(hay: seq<byte>, needle: seq<byte>, p: nat) {
    forall j: nat :: j < p ==> !OccursAt(hay, needle, j)
  }

  lemma NoneAtNext(hay: seq<byte>, needle: seq<byte>, p: nat)
    requires NoneBefore(hay, needle, p) && !OccursAt(hay, needle, p)
    ensures NoneBefore(hay, needle, p + 1)
  {
  }

  /** Where the needle occurs, the window has its hash and its first byte. */
  lemma OccursInMemory(mem: seq<byte>, hayLen: nat, needle: seq<byte>, p: nat)
    requires hayLen <= |mem| && p + |needle| <= hayLen
    ensures OccursAt(mem[..hayLen], needle, p) <==> mem[p..p + |needle|] == needle
    ensures OccursAt(mem[..hayLen], needle, p) ==>
              HashAt(mem, p, |needle|) == Hash(needle) && (needle != [] ==> mem[p] == needle[0])
  {
    var window := mem[p..p + |needle|];
    assert mem[..hayLen][p..p + |needle|] == window;
    assert needle != [] ==> window[0] == mem[p];
  }

  lemma HashNext(s: seq<byte>, k: nat)
    requires k < |s|
    ensures Hash(s[..k + 1]) == ToInt32(Hash(s[..k]) + SignedChar(s[k]))
  {
    assert s[..k + 1][..k] == s[..k];
    WrapAdd(Sum(s[..k]), SignedChar(s[k]));
  }

  /** The result depends on the haystack alone, not on the byte after it. */
  lemma FirstOccurrenceUnique(hay: seq<byte>, needle: seq<byte>, r: Option<nat>, q: Option<nat>)
    requires FirstOccurrence(hay, needle, r) && FirstOccurrence(hay, needle, q)
    ensures r == q
  {
    if r.Some? && q.Some? {
      assert !(r.value < q.value) && !(q.value < r.value);
    }
  }
}
