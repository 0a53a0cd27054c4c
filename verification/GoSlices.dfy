/** Go slice headers over shared backing arrays, and the built-in append. */
module GoSlices {

  /** A slice header. A nil slice is a header with no capacity. */
  datatype Slice<T> = Slice(arr: array<T>, off: nat, len: nat, cap: nat)

  ghost predicate Valid<T>(s: Slice<T>) {
    s.len <= s.cap && s.off + s.cap <= s.arr.Length
  }

  /** The visible contents. */
  function Elems<T>(s: Slice<T>): seq<T>
    requires Valid(s)
    reads s.arr
  {
    s.arr[s.off..s.off + s.len]
  }

  /** The cells that two headers may reach, spare capacity included, do not meet. */
  ghost predicate Disjoint<T>(s: Slice<T>, t: Slice<T>) {
    s.arr != t.arr || s.cap == 0 || t.cap == 0 || s.off + s.cap <= t.off || t.off + t.cap <= s.off
  }

  /** No cell in the spare capacity of `s` is visible through `t`. */
  ghost predicate SpareHidden<T>(s: Slice<T>, t: Slice<T>) {
    s.arr != t.arr || s.len == s.cap || t.len == 0 || s.off + s.cap <= t.off || t.off + t.len <= s.off + s.len
  }

  /** The cells of `s`'s backing array that an append through `s` may write. */
  ghost predicate Spare<T>(s: Slice<T>, j: int) {
    s.off + s.len <= j < s.off + s.cap
  }

  lemma Cell<T>(s: Slice<T>, i: nat)
    requires Valid(s) && i < s.len
    ensures Elems(s)[i] == s.arr[s.off + i]
  {
  }

  lemma Shows<T>(r: Slice<T>, before: seq<T>, xs: seq<T>)
    requires Valid(r) && r.len == |before| + |xs|
    requires forall j :: 0 <= j < |before| ==> r.arr[r.off + j] == before[j]
    requires forall j :: 0 <= j < |xs| ==> r.arr[r.off + |before| + j] == xs[j]
    ensures Elems(r) == before + xs
  {
  }

  /**
   append(s, xs...): in place while the capacity lasts, otherwise into a new array
   of any sufficient capacity.
   */
  method Append<T(0)>(s: Slice<T>, xs: seq<T>) returns (r: Slice<T>)
    requires Valid(s)
    modifies s.arr
    ensures Valid(r) && Elems(r) == old(Elems(s)) + xs
    ensures s.len + |xs| <= s.cap ==> r == s.(len := s.len + |xs|)
    ensures s.len + |xs| > s.cap ==> fresh(r.arr)
    ensures forall j :: 0 <= j < s.arr.Length && !Spare(s, j) ==> s.arr[j] == old(s.arr[j])
  {
    var need := s.len + |xs|;
    if need <= s.cap {
      forall j | 0 <= j < |xs| {
        s.arr[s.off + s.len + j] := xs[j];
      }
      r := s.(len := need);
    } else {
      var grown: nat :| grown >= need;
      var arr := new T[grown];
      forall j | 0 <= j < need {
        arr[j] := if j < s.len then s.arr[s.off + j] else xs[j - s.len];
      }
      r := Slice(arr, 0, need, grown);
    }
    Shows(r, old(Elems(s)), xs);
  }

  /** append, for a caller that still reads the headers in `readers`. */
  method AppendBeside<T(0)>(s: Slice<T>, xs: seq<T>, ghost readers: set<Slice<T>>) returns (r: Slice<T>)
    requires Valid(s)
    requires forall t :: t in readers ==> Valid(t) && SpareHidden(s, t)
    modifies s.arr
    ensures Valid(r) && Elems(r) == old(Elems(s)) + xs
    ensures r == s.(len := s.len + |xs|) || fresh(r.arr)
    ensures forall t :: t in readers ==> Elems(t) == old(Elems(t))
  {
    r := Append(s, xs);
    forall t | t in readers
      ensures Elems(t) == old(Elems(t))
    {
      forall i | 0 <= i < t.len
        ensures Elems(t)[i] == old(Elems(t)[i])
      {
        assert t.arr == s.arr ==> !Spare(s, t.off + i);
      }
    }
  }

  /** The first spare cell of `s` that `t` shows. */
  function FirstShared<T>(s: Slice<T>, t: Slice<T>): (k: nat)
    requires Valid(s) && Valid(t) && !SpareHidden(s, t)
    ensures s.arr == t.arr && Spare(s, k) && t.off <= k < t.off + t.len
  {
    if s.off + s.len < t.off then t.off else s.off + s.len
  }

  /**
   The condition of AppendBeside is exact: if `t` shows a spare cell of `s`, some append through `s`
   changes what `t` shows.
   */
  method OverlapCorrupts<T(0, ==)>(s: Slice<T>, t: Slice<T>, x: T, y: T) returns (xs: seq<T>, r: Slice<T>)
    requires Valid(s) && Valid(t) && !SpareHidden(s, t) && x != y
    modifies s.arr
    ensures Valid(r) && Elems(r) == old(Elems(s)) + xs && r == s.(len := s.len + |xs|)
    ensures Elems(t) != old(Elems(t))
  {
    var k := FirstShared(s, t);
    var v := if s.arr[k] == x then y else x;
    xs := seq(k - (s.off + s.len) + 1, _ => v);
    Cell(t, k - t.off);
    r := Append(s, xs);
    Cell(r, r.len - 1);
    Cell(t, k - t.off);
  }
}
