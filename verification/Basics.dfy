/** What several modules share: bytes, copying, and a few facts about sequences. */
module Basics {

  type byte = b: int | 0 <= b < 256

  datatype Option<+T> = None | Some(value: T)

  ghost predicate Distinct<T>(s: seq<T>) {
    forall i, j :: 0 <= i < j < |s| ==> s[i] != s[j]
  }

  ghost predicate Disjoint<T>(s: seq<T>, t: seq<T>) {
    forall x :: x in s ==> x !in t
  }

  lemma DistinctParts<T>(p: seq<T>, q: seq<T>)
    ensures Distinct(p + q) <==> Distinct(p) && Distinct(q) && Disjoint(p, q)
  {
    var r := p + q;
    assert forall i :: 0 <= i < |p| ==> r[i] == p[i];
    assert forall i :: |p| <= i < |r| ==> r[i] == q[i - |p|];
    if Distinct(r) {
      forall i, j | 0 <= i < |p| && 0 <= j < |q|
        ensures p[i] != q[j]
      {
        assert r[i] != r[|p| + j];
      }
      forall i, j | 0 <= i < j < |q|
        ensures q[i] != q[j]
      {
        assert r[|p| + i] != r[|p| + j];
      }
    }
    if Distinct(p) && Distinct(q) && Disjoint(p, q) {
      forall i, j | 0 <= i < j < |r|
        ensures r[i] != r[j]
      {
        if i < |p| <= j {
          assert p[i] in p && q[j - |p|] in q;
        }
      }
    }
  }

  lemma DisjointAt<T>(s: seq<T>, t: seq<T>)
    requires Disjoint(s, t)
    ensures forall i, j :: 0 <= i < |s| && 0 <= j < |t| ==> s[i] != t[j]
  {
    forall i, j | 0 <= i < |s| && 0 <= j < |t|
      ensures s[i] != t[j]
    {
      assert s[i] in s && t[j] in t;
    }
  }

  /** `s` with its element `k` taken out. */
  ghost function Without<T>(s: seq<T>, k: nat): seq<T>
    requires k < |s|
  {
    s[..k] + s[k + 1..]
  }

  // memcpy between two different arrays
  method Memcpy<T>(dst: array<T>, d: nat, src: array<T>, s: nat, n: nat)
    requires dst != src && d + n <= dst.Length && s + n <= src.Length
    modifies dst
    ensures forall c :: 0 <= c < dst.Length ==> dst[c] == if d <= c < d + n then src[s + c - d] else old(dst[c])
  {
    for i := 0 to n
      invariant forall c :: 0 <= c < dst.Length ==> dst[c] == if d <= c < d + i then src[s + c - d] else old(dst[c])
    {
      dst[d + i] := src[s + i];
    }
  }
}
