/** The bounded ring under the audio buffer: it keeps the newest samples when it overflows. */
module AudioRing {
  import opened Prelude

  /** The last `n` elements of `s`, or all of them. */
  function LastN<T>(s: seq<T>, n: nat): (r: seq<T>)
    ensures |r| == Min(|s|, n)
  {
    if |s| <= n then s else s[|s| - n..]
  }

  /** Dropping the surplus from the front first makes room for exactly the newest samples. */
  lemma OverwriteKeepsNewest<T>(s: seq<T>, elems: seq<T>, cap: nat, surplus: nat)
    requires |s| <= cap
    requires surplus == if |elems| > cap - |s| then Min(|elems| - (cap - |s|), |s|) else 0
    ensures var vacant := cap - |s[surplus..]|;
      s[surplus..] + (if |elems| > vacant then elems[|elems| - vacant..] else elems) == LastN(s + elems, cap)
  {
  }

  /** The `len` samples of a ring from `head` on. */
  function Window<T>(d: seq<T>, head: nat, len: nat): (s: seq<T>)
    requires head < |d| && len <= |d|
    ensures |s| == len
    ensures forall i :: 0 <= i < len ==> s[i] == d[if head + i < |d| then head + i else head + i - |d|]
  {
    if head + len <= |d| then d[head..head + len] else d[head..] + d[..head + len - |d|]
  }

  lemma WindowDrop<T>(d: seq<T>, head: nat, len: nat, k: nat)
    requires head < |d| && len <= |d| && k <= len
    ensures Window(d, if head + k < |d| then head + k else head + k - |d|, len - k) == Window(d, head, len)[k..]
  {
  }

  class Ring<T(0)> {
    const data: array<T>
    var head: nat
    var len: nat

    ghost predicate Valid()
      reads this
    {
      0 < data.Length && head < data.Length && len <= data.Length
    }

    ghost function Contents(): (s: seq<T>)
      requires Valid()
      reads this, data
      ensures |s| == len
    {
      Window(data[..], head, len)
    }

    constructor (capacity: nat)
      requires capacity > 0
      ensures Valid() && fresh(data) && data.Length == capacity && Contents() == []
    {
      data := new T[capacity];
      head, len := 0, 0;
    }

    /** Drops up to `count` samples from the front. */
    method Skip(count: nat) returns (skipped: nat)
      requires Valid()
      modifies this
      ensures Valid() && skipped == Min(count, old(len))
      ensures Contents() == old(Contents())[skipped..]
    {
      skipped := Min(count, len);
      WindowDrop(data[..], head, len, skipped);
      head := if head + skipped < data.Length then head + skipped else head + skipped - data.Length;
      len := len - skipped;
    }

    method Put(x: T)
      requires Valid() && len < data.Length
      modifies this`len, data
      ensures Valid() && len == old(len) + 1
      ensures Contents() == old(Contents()) + [x]
    {
      var slot := if head + len < data.Length then head + len else head + len - data.Length;
      data[slot] := x;
      len := len + 1;
    }

    /** Appends as many samples as fit. */
    method PushSlice(elems: seq<T>) returns (count: nat)
      requires Valid()
      modifies this`len, data
      ensures Valid() && count == Min(|elems|, data.Length - old(len))
      ensures Contents() == old(Contents()) + elems[..count]
    {
      count := 0;
      while count < |elems| && len < data.Length
        invariant Valid() && count <= |elems| && len == old(len) + count
        invariant Contents() == old(Contents()) + elems[..count]
      {
        Put(elems[count]);
        count := count + 1;
      }
    }

    /** Appends all samples, overwriting the oldest. */
    method PushSliceOverwrite(elems: seq<T>)
      requires Valid()
      modifies this, data
      ensures Valid()
      ensures Contents() == LastN(old(Contents()) + elems, data.Length)
    {
      ghost var was := Contents();
      var surplus := 0;
      if |elems| > data.Length - len {
        surplus := Skip(Min(|elems| - (data.Length - len), len));
      }
      OverwriteKeepsNewest(was, elems, data.Length, surplus);
      var vacant := data.Length - len;
      var tail := if |elems| > vacant then elems[|elems| - vacant..] else elems;
      var count := PushSlice(tail);
      assert tail[..count] == tail;
    }

    /** Takes up to `n` samples from the front, in order. */
    method PopSlice(n: nat) returns (elems: seq<T>)
      requires Valid()
      modifies this
      ensures Valid()
      ensures elems == old(Contents())[..Min(n, old(len))]
      ensures Contents() == old(Contents())[Min(n, old(len))..]
    {
      elems := [];
      ghost var was := Contents();
      while |elems| < n && len > 0
        invariant Valid() && |elems| <= n && |elems| + len == |was|
        invariant elems == was[..|elems|] && Contents() == was[|elems|..]
      {
        assert Contents()[0] == data[head];
        elems := elems + [data[head]];
        assert was[..|elems|] == elems;
        var _ := Skip(1);
      }
    }
  }
}
