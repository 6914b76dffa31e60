/**
 * Cutting a byte buffer into views: fixed-length slices one after another,
 * or the runs of bytes between occurrences of a split code. A view is what
 * Uint8Array.prototype.subarray returns: a window onto the buffer, given by
 * its first position and the position after its last.
 */
module ByteSplit {
  import opened Wrappers

  newtype byte = x: int | 0 <= x < 256

  /** The window onto positions begin .. end - 1 of the buffer. */
  datatype View = View(begin: nat, end: nat)

  /** The bytes a view shows; a view reaching outside the buffer, which subarray never makes, shows none. */
  function Bytes(buf: seq<byte>, v: View): seq<byte> {
    if v.begin <= v.end <= |buf| then buf[v.begin..v.end] else []
  }

  /** The bytes of several views, one after another. */
  function Concat(buf: seq<byte>, vs: seq<View>): seq<byte>
  {
    if vs == [] then [] else Bytes(buf, vs[0]) + Concat(buf, vs[1..])
  }

  /** A position given to subarray on a buffer of `len` bytes: a negative one counts from the end, and both ends are clamped to 0 .. len. */
  function Clamp(len: nat, x: int): (r: nat)
    ensures r <= len
    ensures 0 <= x <= len ==> r == x
    ensures x > len ==> r == len
  {
    if x < 0 then (if len + x < 0 then 0 else len + x) else if x > len then len else x
  }

  /** `subarray(b, e)`: the clamped window, empty when the end falls before the beginning. */
  function Subarray(len: nat, b: int, e: int): (v: View)
    ensures v.begin <= v.end <= len
    ensures 0 <= b <= e <= len ==> v == View(b, e)
  {
    var lo := Clamp(len, b);
    var hi := Clamp(len, e);
    View(lo, if hi < lo then lo else hi)
  }

  // ---------------------------------------------------------------------
  // Fixed-length buffers
  // ---------------------------------------------------------------------

  /** The largest length `new Array(n)` accepts. */
  const MaxArrayLength: int := 0x1_0000_0000 - 1

  /** `number` slices of `length` positions each, the first at `offset` and each next one where the one before it ends, clamped to the buffer. */
  function FixedSlices(len: nat, offset: int, length: int, number: nat): (r: seq<View>)
    ensures |r| == number
    decreases number
  {
    if number == 0 then [] else [Subarray(len, offset, offset + length)] + FixedSlices(len, offset + length, length, number - 1)
  }

  /**
   * `number` slices of `length` bytes, the first at `offset`; a number
   * `new Array` refuses (negative, or above 2^32 - 1) throws a RangeError (None).
   */
  method GetFixedLengthBuffers(buffer: seq<byte>, offset: int, length: int, number: int) returns (r: Option<seq<View>>)
    ensures r.None? <==> number < 0 || number > MaxArrayLength
    ensures r.Some? ==> r.value == FixedSlices(|buffer|, offset, length, number)
  {
    if number < 0 || number > MaxArrayLength {
      return None;
    }
    var buffers := new View[number](_ => View(0, 0));
    var i := 0;
    var start := offset;
    while i < number
      invariant 0 <= i <= number
      invariant buffers[..i] + FixedSlices(|buffer|, start, length, number - i) == FixedSlices(|buffer|, offset, length, number)
    {
      var end := start + length;
      ghost var before := buffers[..i];
      buffers[i] := Subarray(|buffer|, start, end);
      assert buffers[..i + 1] == before + [Subarray(|buffer|, start, end)];
      assert FixedSlices(|buffer|, start, length, number - i) ==
        [Subarray(|buffer|, start, end)] + FixedSlices(|buffer|, end, length, number - i - 1);
      start := end;
      i := i + 1;
    }
    assert buffers[..] == buffers[..number];
    return Some(buffers[..]);
  }

  /** How far `n` strides of `length` reach: n * length, built up one stride at a time. */
  function Span(n: nat, length: int): (r: int)
    ensures length >= 0 ==> r >= 0
  {
    if n == 0 then 0 else Span(n - 1, length) + length
  }

  lemma {:induction false} SpanIsProduct(n: nat, length: int)
    ensures Span(n, length) == n * length
  {
    if n > 0 {
      SpanIsProduct(n - 1, length);
      assert (n - 1) * length + length == n * length;
    }
  }

  /** With a non-negative length, fewer strides reach no further. */
  lemma {:induction false} SpanMono(i: nat, n: nat, length: int)
    requires i <= n && length >= 0
    ensures 0 <= Span(i, length) <= Span(n, length)
    decreases n
  {
    if i < n {
      SpanMono(i, n - 1, length);
    } else if n > 0 {
      SpanMono(n - 1, n - 1, length);
    }
  }

  /** Slice `i` covers offset + Span(i, length) and the `length` positions after it, clamped. */
  lemma {:induction false} FixedSliceAt(len: nat, offset: int, length: int, number: nat, i: nat)
    requires i < number
    ensures FixedSlices(len, offset, length, number)[i] ==
      Subarray(len, offset + Span(i, length), offset + Span(i, length) + length)
    decreases i
  {
    if i > 0 {
      var t := FixedSlices(len, offset + length, length, number - 1);
      var b := offset + Span(i, length);
      assert FixedSlices(len, offset, length, number)[i] == t[i - 1];
      FixedSliceAt(len, offset + length, length, number - 1, i - 1);
      SpanShift(i - 1, length);
      assert offset + length + Span(i - 1, length) == b;
    }
  }

  /** One stride first, then `n` more, reaches as far as n + 1 strides. */
  lemma {:induction false} SpanShift(n: nat, length: int)
    ensures length + Span(n, length) == Span(n + 1, length)
  {
  }

  /** Clamping keeps non-negative positions in order. */
  lemma {:induction false} ClampMono(len: nat, x: int, y: int)
    requires 0 <= x <= y
    ensures Clamp(len, x) <= Clamp(len, y)
  {
  }

  /** Each view ends where the next one begins. */
  predicate Adjacent(vs: seq<View>) {
    forall i :: 0 <= i < |vs| - 1 ==> vs[i].end == vs[i + 1].begin
  }

  /** With a non-negative offset and length the slices follow each other: each ends where the next begins. */
  lemma {:induction false} FixedAdjacent(len: nat, offset: int, length: int, number: nat)
    requires offset >= 0 && length >= 0
    ensures Adjacent(FixedSlices(len, offset, length, number))
    decreases number
  {
    if number > 1 {
      var r := FixedSlices(len, offset, length, number);
      var t := FixedSlices(len, offset + length, length, number - 1);
      FixedAdjacent(len, offset + length, length, number - 1);
      ClampMono(len, offset, offset + length);
      assert r[0].end == t[0].begin;
      assert forall i :: 0 < i < number ==> r[i] == t[i - 1];
    }
  }

  /** Two adjacent stretches of a sequence make up the stretch they span. */
  lemma {:induction false} SliceJoin(buf: seq<byte>, a: nat, b: nat, c: nat)
    requires a <= b <= c <= |buf|
    ensures buf[a..b] + buf[b..c] == buf[a..c]
  {
  }

  /** A view from `a` to `b` followed by views showing the bytes from `b` to `c` shows the bytes from `a` to `c`. */
  lemma {:induction false} ConcatStep(buf: seq<byte>, a: nat, b: nat, c: nat, vs: seq<View>)
    requires a <= b <= c <= |buf| && Concat(buf, vs) == buf[b..c]
    ensures Concat(buf, [View(a, b)] + vs) == buf[a..c]
  {
    ConcatCons(buf, View(a, b), vs);
    SliceJoin(buf, a, b, c);
  }

  /** The bytes of a view followed by more views. */
  lemma {:induction false} ConcatCons(buf: seq<byte>, v: View, vs: seq<View>)
    ensures Concat(buf, [v] + vs) == Bytes(buf, v) + Concat(buf, vs)
  {
    assert ([v] + vs)[0] == v && ([v] + vs)[1..] == vs;
  }

  /** The slices inside the buffer join up into the stretch they cover. */
  lemma {:induction false} FixedConcat(buf: seq<byte>, offset: int, length: int, number: nat)
    requires offset >= 0 && length >= 0 && offset + Span(number, length) <= |buf|
    ensures Concat(buf, FixedSlices(|buf|, offset, length, number)) == buf[offset..offset + Span(number, length)]
    decreases number
  {
    if number > 0 {
      var mid := offset + length;
      var stop := offset + Span(number, length);
      var x := Subarray(|buf|, offset, mid);
      var t := FixedSlices(|buf|, mid, length, number - 1);
      assert FixedSlices(|buf|, offset, length, number) == [x] + t;
      assert x == View(offset, mid);
      FixedConcat(buf, mid, length, number - 1);
      ConcatStep(buf, offset, mid, stop, t);
    }
  }

  /** A slice that fits is not clamped. */
  lemma {:induction false} FixedSliceFits(buf: seq<byte>, offset: int, length: int, number: nat, i: nat)
    requires offset >= 0 && length >= 0 && offset + Span(number, length) <= |buf| && i < number
    ensures FixedSlices(|buf|, offset, length, number)[i] == View(offset + Span(i, length), offset + Span(i, length) + length)
  {
    FixedSliceAt(|buf|, offset, length, number, i);
    SpanMono(i + 1, number, length);
  }

  /**
   * With a non-negative offset and length, when all the slices fit in the
   * buffer, slice `i` is exactly the `length` bytes at offset + Span(i, length)
   * (that is, offset + i * length), and together the slices are the bytes
   * from `offset` to offset + Span(number, length).
   */
  lemma {:induction false} FixedInside(buf: seq<byte>, offset: int, length: int, number: nat)
    requires offset >= 0 && length >= 0 && offset + Span(number, length) <= |buf|
    ensures forall i :: 0 <= i < number ==>
      FixedSlices(|buf|, offset, length, number)[i] == View(offset + Span(i, length), offset + Span(i, length) + length)
    ensures Concat(buf, FixedSlices(|buf|, offset, length, number)) == buf[offset..offset + Span(number, length)]
  {
    FixedConcat(buf, offset, length, number);
    forall i | 0 <= i < number
      ensures FixedSlices(|buf|, offset, length, number)[i] == View(offset + Span(i, length), offset + Span(i, length) + length)
    {
      FixedSliceFits(buf, offset, length, number, i);
    }
  }

  // ---------------------------------------------------------------------
  // Variable-length buffers
  // ---------------------------------------------------------------------

  /** Whether the byte at `i` is the split code; a position outside the buffer reads `undefined`, which never is. */
  predicate IsSplit(buf: seq<byte>, i: int, splitCode: int) {
    0 <= i < |buf| && buf[i] as int == splitCode
  }

  /** The first split position from `i` on, or `end` if there is none before it. */
  function RunEnd(buf: seq<byte>, i: int, end: int, splitCode: int): (e: int)
    requires i <= end
    ensures i <= e <= end
    ensures e == end || IsSplit(buf, e, splitCode)
    ensures forall j :: i <= j < e ==> !IsSplit(buf, j, splitCode)
    decreases end - i
  {
    if i == end || IsSplit(buf, i, splitCode) then i else RunEnd(buf, i + 1, end, splitCode)
  }

  /**
   * The maximal runs of positions in i .. end - 1 holding no split code,
   * left to right, each as its first position and the position after its last.
   */
  function Runs(buf: seq<byte>, i: int, end: int, splitCode: int): seq<(int, int)>
    decreases end - i
  {
    if i >= end then []
    else if IsSplit(buf, i, splitCode) then Runs(buf, i + 1, end, splitCode)
    else
      var e := RunEnd(buf, i, end, splitCode);
      [(i, e)] + Runs(buf, e, end, splitCode)
  }

  /**
   * `r` lists maximal runs of i .. end - 1: each lies in that stretch, holds
   * no split code, ends at `end` or at a split code, begins at `i` or just
   * after a split code, and lies strictly after the one before it.
   */
  predicate Maximal(buf: seq<byte>, i: int, end: int, splitCode: int, r: seq<(int, int)>) {
    (forall k :: 0 <= k < |r| ==> i <= r[k].0 < r[k].1 <= end) &&
    (forall k :: 0 <= k < |r| ==> r[k].1 == end || IsSplit(buf, r[k].1, splitCode)) &&
    (forall k :: 0 <= k < |r| ==> r[k].0 == i || IsSplit(buf, r[k].0 - 1, splitCode)) &&
    (forall k, j :: 0 <= k < |r| && r[k].0 <= j < r[k].1 ==> !IsSplit(buf, j, splitCode)) &&
    (forall k :: 0 < k < |r| ==> r[k - 1].1 < r[k].0)
  }

  /** A run up to a split code, followed by maximal runs of what lies after that split code, are maximal runs. */
  lemma {:induction false} MaximalCons(buf: seq<byte>, i: int, e: int, end: int, splitCode: int, t: seq<(int, int)>)
    requires i < e < end && IsSplit(buf, e, splitCode)
    requires forall j :: i <= j < e ==> !IsSplit(buf, j, splitCode)
    requires Maximal(buf, e + 1, end, splitCode, t)
    ensures Maximal(buf, i, end, splitCode, [(i, e)] + t)
  {
    var r := [(i, e)] + t;
    forall k | 0 <= k < |r|
      ensures i <= r[k].0 < r[k].1 <= end
      ensures r[k].1 == end || IsSplit(buf, r[k].1, splitCode)
      ensures r[k].0 == i || IsSplit(buf, r[k].0 - 1, splitCode)
      ensures k > 0 ==> r[k - 1].1 < r[k].0
    {
      if k > 0 {
        assert r[k] == t[k - 1];
        if k > 1 {
          assert r[k - 1] == t[k - 2];
        }
      }
    }
    forall k, j | 0 <= k < |r| && r[k].0 <= j < r[k].1 ensures !IsSplit(buf, j, splitCode) {
      if k > 0 {
        assert r[k] == t[k - 1];
      }
    }
  }

  /** Maximal runs after a split code are maximal runs from the split code on. */
  lemma {:induction false} MaximalSkip(buf: seq<byte>, i: int, end: int, splitCode: int, r: seq<(int, int)>)
    requires IsSplit(buf, i, splitCode) && Maximal(buf, i + 1, end, splitCode, r)
    ensures Maximal(buf, i, end, splitCode, r)
  {
  }

  /** The runs the scan finds are maximal. */
  lemma {:induction false} RunsShape(buf: seq<byte>, i: int, end: int, splitCode: int)
    ensures Maximal(buf, i, end, splitCode, Runs(buf, i, end, splitCode))
    decreases end - i
  {
    if i < end {
      if IsSplit(buf, i, splitCode) {
        RunsShape(buf, i + 1, end, splitCode);
        MaximalSkip(buf, i, end, splitCode, Runs(buf, i + 1, end, splitCode));
      } else {
        var e := RunEnd(buf, i, end, splitCode);
        var r := Runs(buf, i, end, splitCode);
        assert r == [(i, e)] + Runs(buf, e, end, splitCode);
        if e < end {
          var t := Runs(buf, e + 1, end, splitCode);
          assert IsSplit(buf, e, splitCode);
          assert Runs(buf, e, end, splitCode) == t;
          RunsShape(buf, e + 1, end, splitCode);
          MaximalCons(buf, i, e, end, splitCode, t);
        } else {
          assert Runs(buf, e, end, splitCode) == [];
          assert r == [(i, e)];
        }
      }
    }
  }

  /** The runs as subarray views of a buffer of `len` bytes. */
  function Views(len: nat, runs: seq<(int, int)>): (r: seq<View>)
    ensures |r| == |runs|
  {
    seq(|runs|, k requires 0 <= k < |runs| => Subarray(len, runs[k].0, runs[k].1))
  }

  /** Running through a position that holds no split code does not end the run. */
  lemma {:induction false} RunEndStep(buf: seq<byte>, i: int, end: int, splitCode: int)
    requires i < end && !IsSplit(buf, i, splitCode)
    ensures RunEnd(buf, i, end, splitCode) == RunEnd(buf, i + 1, end, splitCode)
  {
  }

  /** A two-state scan over offset .. end - 1: outside a run a non-split byte starts one, inside a run a split byte ends it. */
  method GetVariableLengthBuffers(buffer: seq<byte>, offset: int, end: int, splitCode: int) returns (buffers: seq<View>)
    ensures buffers == Views(|buffer|, Runs(buffer, offset, end, splitCode))
  {
    buffers := [];
    ghost var runs: seq<(int, int)> := [];
    var inBuffer := false;
    var start := 0;
    var i := offset;
    while i < end
      invariant offset <= i && (offset < end ==> i <= end)
      invariant buffers == Views(|buffer|, runs)
      invariant !inBuffer ==> runs + Runs(buffer, i, end, splitCode) == Runs(buffer, offset, end, splitCode)
      invariant inBuffer ==> (offset <= start < i <= end && !IsSplit(buffer, start, splitCode) &&
        RunEnd(buffer, start, end, splitCode) == RunEnd(buffer, i, end, splitCode) &&
        runs + Runs(buffer, start, end, splitCode) == Runs(buffer, offset, end, splitCode))
      decreases end - i
    {
      if inBuffer {
        if IsSplit(buffer, i, splitCode) {
          assert RunEnd(buffer, start, end, splitCode) == i;
          assert Views(|buffer|, runs + [(start, i)]) == buffers + [Subarray(|buffer|, start, i)];
          buffers := buffers + [Subarray(|buffer|, start, i)];
          runs := runs + [(start, i)];
          inBuffer := false;
        } else {
          RunEndStep(buffer, i, end, splitCode);
        }
      } else {
        if !IsSplit(buffer, i, splitCode) {
          start := i;
          inBuffer := true;
          RunEndStep(buffer, i, end, splitCode);
        }
      }
      i := i + 1;
    }
    if inBuffer {
      assert RunEnd(buffer, start, end, splitCode) == end;
      assert Views(|buffer|, runs + [(start, end)]) == buffers + [Subarray(|buffer|, start, end)];
      buffers := buffers + [Subarray(|buffer|, start, end)];
      runs := runs + [(start, end)];
    }
    assert runs == Runs(buffer, offset, end, splitCode);
  }

  /** Some run of `r` contains position `j`. */
  predicate Covered(r: seq<(int, int)>, j: int) {
    exists k :: 0 <= k < |r| && r[k].0 <= j < r[k].1
  }

  /** Every position from `i` to `end` that holds no split code lies in one of the runs. */
  lemma {:induction false} RunsCover(buf: seq<byte>, i: int, end: int, splitCode: int, j: int)
    requires i <= j < end && !IsSplit(buf, j, splitCode)
    ensures Covered(Runs(buf, i, end, splitCode), j)
    decreases end - i
  {
    var r := Runs(buf, i, end, splitCode);
    if IsSplit(buf, i, splitCode) {
      RunsCover(buf, i + 1, end, splitCode, j);
    } else {
      var e := RunEnd(buf, i, end, splitCode);
      var t := Runs(buf, e, end, splitCode);
      assert r == [(i, e)] + t;
      if j < e {
        assert r[0].0 <= j < r[0].1;
      } else {
        RunsCover(buf, e, end, splitCode, j);
        var k :| 0 <= k < |t| && t[k].0 <= j < t[k].1;
        assert r[k + 1] == t[k];
      }
    }
  }

  /** The bytes of `s` other than the split code, in order. */
  function Strip(s: seq<byte>, splitCode: int): seq<byte> {
    if s == [] then [] else (if s[0] as int == splitCode then [] else [s[0]]) + Strip(s[1..], splitCode)
  }

  lemma {:induction false} StripConcat(a: seq<byte>, b: seq<byte>, splitCode: int)
    ensures Strip(a + b, splitCode) == Strip(a, splitCode) + Strip(b, splitCode)
    decreases |a|
  {
    if a != [] {
      assert (a + b)[1..] == a[1..] + b;
      StripConcat(a[1..], b, splitCode);
    } else {
      assert a + b == b;
    }
  }

  /** A stretch of positions holding no split code loses nothing to Strip. */
  lemma {:induction false} StripClean(s: seq<byte>, splitCode: int)
    requires forall j :: 0 <= j < |s| ==> s[j] as int != splitCode
    ensures Strip(s, splitCode) == s
    decreases |s|
  {
    if s != [] {
      StripClean(s[1..], splitCode);
      assert [s[0]] + s[1..] == s;
    }
  }

  /** The views of one more run. */
  lemma {:induction false} ViewsCons(len: nat, x: (int, int), t: seq<(int, int)>)
    ensures Views(len, [x] + t) == [Subarray(len, x.0, x.1)] + Views(len, t)
  {
    var l := Views(len, [x] + t);
    var rt := [Subarray(len, x.0, x.1)] + Views(len, t);
    forall k | 0 <= k < |l| ensures l[k] == rt[k] {
      if k > 0 {
        assert ([x] + t)[k] == t[k - 1];
      }
    }
  }

  /** A split code at the front of a stretch is stripped away. */
  lemma {:induction false} StripSplit(buf: seq<byte>, i: int, end: int, splitCode: int)
    requires 0 <= i < end <= |buf| && IsSplit(buf, i, splitCode)
    ensures Strip(buf[i..end], splitCode) == Strip(buf[i + 1..end], splitCode)
  {
    assert buf[i..end][0] == buf[i];
    assert buf[i..end][1..] == buf[i + 1..end];
  }

  /** A clean run at the front of a stretch survives stripping whole. */
  lemma {:induction false} StripRun(buf: seq<byte>, i: int, e: int, end: int, splitCode: int)
    requires 0 <= i <= e <= end <= |buf|
    requires forall j :: i <= j < e ==> !IsSplit(buf, j, splitCode)
    ensures Strip(buf[i..end], splitCode) == buf[i..e] + Strip(buf[e..end], splitCode)
  {
    assert forall j :: 0 <= j < e - i ==> buf[i..e][j] == buf[i + j] && !IsSplit(buf, i + j, splitCode);
    StripClean(buf[i..e], splitCode);
    assert buf[i..end] == buf[i..e] + buf[e..end];
    StripConcat(buf[i..e], buf[e..end], splitCode);
  }

  /**
   * Inside the buffer, the runs split the stretch exactly: joined together
   * they are its bytes with every split code removed.
   */
  lemma {:induction false} RunsConcat(buf: seq<byte>, i: int, end: int, splitCode: int)
    requires 0 <= i && end <= |buf|
    ensures Concat(buf, Views(|buf|, Runs(buf, i, end, splitCode))) == if i < end then Strip(buf[i..end], splitCode) else []
    decreases end - i
  {
    if i < end {
      if IsSplit(buf, i, splitCode) {
        RunsConcat(buf, i + 1, end, splitCode);
        StripSplit(buf, i, end, splitCode);
        if i + 1 == end {
          assert buf[i + 1..end] == [];
        }
      } else {
        var e := RunEnd(buf, i, end, splitCode);
        var t := Runs(buf, e, end, splitCode);
        assert Runs(buf, i, end, splitCode) == [(i, e)] + t;
        RunsConcat(buf, e, end, splitCode);
        ViewsCons(|buf|, (i, e), t);
        ConcatCons(buf, View(i, e), Views(|buf|, t));
        StripRun(buf, i, e, end, splitCode);
        if e == end {
          assert buf[e..end] == [];
        }
      }
    }
  }

  /** Inside the buffer every view is non-empty and shows no split code. */
  lemma {:induction false} RunsClean(buf: seq<byte>, i: int, end: int, splitCode: int)
    requires 0 <= i && end <= |buf|
    ensures var vs := Views(|buf|, Runs(buf, i, end, splitCode));
      forall k :: 0 <= k < |vs| ==> (vs[k].begin < vs[k].end &&
        forall j :: vs[k].begin <= j < vs[k].end ==> buf[j] as int != splitCode)
  {
    var r := Runs(buf, i, end, splitCode);
    var vs := Views(|buf|, r);
    RunsShape(buf, i, end, splitCode);
    forall k | 0 <= k < |vs|
      ensures vs[k].begin < vs[k].end && forall j :: vs[k].begin <= j < vs[k].end ==> buf[j] as int != splitCode
    {
      assert 0 <= r[k].0 < r[k].1 <= |buf|;
      assert vs[k] == View(r[k].0, r[k].1);
      forall j | r[k].0 <= j < r[k].1 ensures buf[j] as int != splitCode {
        assert !IsSplit(buf, j, splitCode);
      }
    }
  }
}
