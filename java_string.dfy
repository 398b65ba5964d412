/** The parts of java.lang.String that the timestamp normaliser relies on. */
module JavaString {

  /** `s.indexOf(c, from)`: the least index at or after `from` that holds `c`,
      or -1 when there is none. A negative `from` searches the whole string. */
  function IndexOf(s: string, c: char, from: int): (r: int)
    ensures -1 <= r < |s|
    ensures 0 <= r ==> from <= r && s[r] == c
    decreases if from < 0 then |s| + 1 else |s| - from
  {
    if from < 0 then IndexOf(s, c, 0)
    else if from >= |s| then -1
    else if s[from] == c then from
    else IndexOf(s, c, from + 1)
  }

  /** IndexOf finds the first occurrence: no index it passed over holds `c`. */
  lemma {:induction false} IndexOfFirst(s: string, c: char, from: int)
    ensures forall i :: 0 <= i < |s| && from <= i && (IndexOf(s, c, from) < 0 || i < IndexOf(s, c, from)) ==> s[i] != c
    decreases if from < 0 then |s| + 1 else |s| - from
  {
    if from < 0 {
      IndexOfFirst(s, c, 0);
    } else if from < |s| && s[from] != c {
      IndexOfFirst(s, c, from + 1);
    }
  }

  /** Moves a found index by `k` and keeps "not found" as -1. */
  function Shift(r: int, k: nat): int {
    if r < 0 then -1 else r + k
  }

  /** Any index with the property IndexOf promises is the one it returns. */
  lemma IndexOfUnique(s: string, c: char, from: int, r: int)
    requires -1 <= r < |s|
    requires 0 <= r ==> from <= r && s[r] == c
    requires forall i :: 0 <= i < |s| && from <= i && (r < 0 || i < r) ==> s[i] != c
    ensures IndexOf(s, c, from) == r
  {
    IndexOfFirst(s, c, from);
  }

  /** Searching a concatenation: the left part first, then the right part. */
  lemma IndexOfConcat(p: string, q: string, c: char, from: int)
    ensures from <= |p| ==>
      IndexOf(p + q, c, from) ==
        if IndexOf(p, c, from) >= 0 then IndexOf(p, c, from) else Shift(IndexOf(q, c, 0), |p|)
    ensures from >= |p| ==>
      IndexOf(p + q, c, from) == Shift(IndexOf(q, c, from - |p|), |p|)
  {
    var s := p + q;
    IndexOfFirst(p, c, from);
    IndexOfFirst(q, c, 0);
    IndexOfFirst(q, c, from - |p|);
    if from <= |p| {
      var rp := IndexOf(p, c, from);
      var r := if rp >= 0 then rp else Shift(IndexOf(q, c, 0), |p|);
      IndexOfUnique(s, c, from, r);
    }
    if from >= |p| {
      var r := Shift(IndexOf(q, c, from - |p|), |p|);
      IndexOfUnique(s, c, from, r);
    }
  }

  /** Splicing `ins`, which holds no `c`, in at `k` leaves every search that
      starts at or before `k` finding the same occurrence, moved past `ins`
      when it lies at or after `k`. */
  lemma IndexOfInsert(s: string, k: nat, ins: string, c: char, from: int)
    requires k <= |s| && from <= k
    requires c !in ins
    ensures var r := IndexOf(s, c, from);
      IndexOf(s[..k] + ins + s[k..], c, from) == if r < k then r else r + |ins|
  {
    var r := IndexOf(s, c, from);
    var p, q := s[..k], s[k..];
    assert s == p + q;
    IndexOfConcat(p, q, c, from);
    IndexOfConcat(p + ins, q, c, from);
    IndexOfConcat(p, ins, c, from);
    assert IndexOf(ins, c, 0) == -1;
  }

  /** The same for a search that starts after the splice point. */
  lemma IndexOfInsertAfter(s: string, k: nat, ins: string, c: char, from: int)
    requires k <= |s| && k <= from
    ensures IndexOf(s[..k] + ins + s[k..], c, from + |ins|) == Shift(IndexOf(s, c, from), |ins|)
  {
    var p, q := s[..k], s[k..];
    assert s == p + q;
    IndexOfConcat(p, q, c, from);
    IndexOfConcat(p + ins, q, c, from + |ins|);
  }
}
