/** The endless pseudo-random upload stream: it serves the bytes of a fixed
    random slice, jumping back to a random position in the first half of
    the slice whenever it is at the start or on the last byte.

    The random generator is a nondeterministic choice in its documented
    range. Java arrays are sequences here; a method that fills an array
    returns the array's new contents. The stream's `size` and `bytesRead`
    fields are never read by the source and are not modelled. */
module InputStream {
  import opened Wrappers

  /** A Java `byte`. */
  newtype Int8 = x: int | -128 <= x < 128

  datatype Stream = Stream(slice: seq<Int8>, pos: int)

  /** `IllegalArgumentException` from the generator when asked for a number
      below zero, and `ArrayIndexOutOfBoundsException` from an array
      store. */
  datatype StreamError = IllegalArgument | IndexOutOfBounds

  /** The stream as constructed: at the start of its slice. */
  function Open(slice: seq<Int8>): (s: Stream)
    ensures s.slice == slice && s.pos == 0 && Valid(s)
  {
    Stream(slice, 0)
  }

  /** The position is at the start or on a byte of the slice. */
  predicate Valid(s: Stream) {
    0 <= s.pos && (s.pos == 0 || s.pos < |s.slice|)
  }

  /** The position is at the start or on the last byte, so the next read
      first jumps to a random position. */
  predicate NeedsJump(s: Stream) {
    s.pos == 0 || s.pos == |s.slice| - 1
  }

  /** The exclusive bound of the jump, `floor(sliceLen / 2)`. */
  function JumpBound(s: Stream): (n: int)
    ensures n >= 1 <==> |s.slice| >= 2
  {
    |s.slice| / 2
  }

  /** Reading the next byte of `s` may take it from slice position `p`: a
      position in the jump range when a jump is due, the current position
      otherwise. */
  predicate Draw(s: Stream, p: int) {
    0 <= p < |s.slice| && (if NeedsJump(s) then p < JumpBound(s) else p == s.pos)
  }

  /** The stream before the `i`-th of the reads that took slice positions
      `ps`, in order. */
  function Before(s: Stream, ps: seq<int>, i: nat): Stream
    requires i <= |ps|
  {
    if i == 0 then s else s.(pos := ps[i - 1] + 1)
  }

  /** The stream after all of them. */
  function After(s: Stream, ps: seq<int>): Stream {
    Before(s, ps, |ps|)
  }

  /** `ps` is a run of positions successive reads from `s` may take: each
      read draws from the stream the earlier reads left. */
  ghost predicate Trace(s: Stream, ps: seq<int>) {
    && (forall i :: 0 <= i < |ps| ==> 0 <= ps[i] < |s.slice|)
    && (forall i {:trigger Before(s, ps, i)} :: 0 <= i < |ps| ==> Draw(Before(s, ps, i), ps[i]))
  }

  /** One more read extends a run. */
  lemma TraceExtend(s: Stream, ps: seq<int>, p: int)
    requires Trace(s, ps) && Draw(After(s, ps), p)
    ensures Trace(s, ps + [p])
    ensures After(s, ps + [p]) == s.(pos := p + 1)
  {
    var qs := ps + [p];
    forall i | 0 <= i < |qs|
      ensures Draw(Before(s, qs, i), qs[i])
    {
      if i < |ps| {
        assert Before(s, qs, i) == Before(s, ps, i);
      }
    }
  }

  /** `read()` as written: the slice byte at the position, sign-extended,
      after a jump when one is due. A slice shorter than two bytes makes
      the generator throw on the first read. */
  method ReadSigned(s: Stream) returns (r: Result<Int8, StreamError>, s': Stream)
    requires Valid(s)
    ensures Valid(s') && s'.slice == s.slice
    ensures r.Failure? <==> |s.slice| < 2
    ensures r.Failure? ==> r.error == IllegalArgument && s' == s
    ensures r.Success? ==>
      && 1 <= s'.pos < |s.slice|
      && r.value == s.slice[s'.pos - 1]
      && Draw(s, s'.pos - 1) && s' == s.(pos := s'.pos)
      && (!NeedsJump(s) ==> s'.pos == s.pos + 1)
      && (NeedsJump(s) ==> s'.pos - 1 < JumpBound(s))
  {
    var p := s.pos;
    if NeedsJump(s) {
      var n := JumpBound(s);
      if n <= 0 {
        return Failure(IllegalArgument), s;
      }
      var draw :| 0 <= draw < n;
      p := draw;
    }
    r := Success(s.slice[p]);
    s' := s.(pos := p + 1);
  }

  /** The value `InputStream.read()` is meant to return for a byte:
      `b & 0xFF`. */
  function Unsigned(b: Int8): (v: int)
    ensures 0 <= v < 256
    ensures v % 256 == (b as int) % 256
  {
    if b < 0 then b as int + 256 else b as int
  }

  /** The narrowing cast `(byte) v` of a value in `[0, 255]`. */
  function ToByte(v: int): (b: Int8)
    requires 0 <= v < 256
    ensures Unsigned(b) == v
  {
    if v >= 128 then (v - 256) as Int8 else v as Int8
  }

  /** Casting the unsigned value back to a byte gives the byte read. */
  lemma ByteRoundTrip(b: Int8)
    ensures ToByte(Unsigned(b)) == b
  {
  }

  /** `read()` returning the byte as an unsigned value, so that no byte
      reads as the end-of-stream marker `-1`. */
  method Read(s: Stream) returns (r: Result<int, StreamError>, s': Stream)
    requires Valid(s)
    ensures Valid(s') && s'.slice == s.slice
    ensures r.Failure? <==> |s.slice| < 2
    ensures r.Failure? ==> r.error == IllegalArgument && s' == s
    ensures r.Success? ==>
      && 0 <= r.value < 256
      && 1 <= s'.pos < |s.slice|
      && r.value == Unsigned(s.slice[s'.pos - 1])
      && Draw(s, s'.pos - 1) && s' == s.(pos := s'.pos)
      && (!NeedsJump(s) ==> s'.pos == s.pos + 1)
      && (NeedsJump(s) ==> s'.pos - 1 < JumpBound(s))
  {
    var b;
    b, s' := ReadSigned(s);
    match b
    case Failure(e) => r := Failure(e);
    case Success(v) => r := Success(Unsigned(v));
  }

  /** `read(b)`: fill every position of `b` with the next bytes, each the
      value of `read()` as written cast back to a byte, and return
      `b.length`. `ps` is the run of slice positions the reads took. */
  method ReadAll(s: Stream, b: seq<Int8>)
    returns (r: Result<int, StreamError>, b': seq<Int8>, s': Stream, ghost ps: seq<int>)
    requires Valid(s)
    ensures Valid(s') && s'.slice == s.slice && |b'| == |b|
    ensures r.Failure? <==> |b| > 0 && |s.slice| < 2
    ensures r.Failure? ==> r.error == IllegalArgument && b' == b && s' == s
    ensures r.Success? ==>
      && r.value == |b| && |ps| == |b|
      && Trace(s, ps) && s' == After(s, ps)
      && forall i :: 0 <= i < |b| ==> b'[i] == s.slice[ps[i]]
  {
    b', s', ps := b, s, [];
    var i := 0;
    while i < |b|
      invariant 0 <= i <= |b| && |b'| == |b| && |ps| == i
      invariant Valid(s') && s'.slice == s.slice
      invariant i > 0 ==> |s.slice| >= 2
      invariant i == 0 ==> b' == b
      invariant Trace(s, ps) && s' == After(s, ps)
      invariant forall k :: 0 <= k < i ==> b'[k] == s.slice[ps[k]]
    {
      var v, next := ReadSigned(s');
      if v.Failure? {
        return Failure(v.error), b', s', ps;
      }
      TraceExtend(s, ps, next.pos - 1);
      ps := ps + [next.pos - 1];
      s' := next;
      b' := b'[i := v.value];
      i := i + 1;
    }
    r := Success(i);
  }

  /** `read(b, off, len)` as written: it ignores `off` and fills positions
      `0 .. len-1`. Each store reads the next byte before the index is
      checked, so a `len` beyond the array consumes one more byte and then
      fails; a `len` of zero or less reads nothing and returns 0. `ps` is
      the run of slice positions the reads took. */
  method ReadRangeAsWritten(s: Stream, b: seq<Int8>, off: int, len: int)
    returns (r: Result<int, StreamError>, b': seq<Int8>, s': Stream, ghost ps: seq<int>)
    requires Valid(s)
    ensures Valid(s') && s'.slice == s.slice && |b'| == |b|
    ensures r.Success? <==> len <= |b| && (len <= 0 || |s.slice| >= 2)
    ensures len > 0 && |s.slice| < 2 ==> r == Failure(IllegalArgument) && b' == b && s' == s
    ensures len > |b| && |s.slice| >= 2 ==> r == Failure(IndexOutOfBounds) && |ps| == |b| + 1
    ensures Trace(s, ps) && s' == After(s, ps)
    ensures forall i :: 0 <= i < |ps| && i < |b| ==> b'[i] == s.slice[ps[i]]
    ensures forall i :: |ps| <= i < |b| ==> b'[i] == b[i]
    ensures r.Success? ==> r.value == |ps| == (if len <= 0 then 0 else len)
  {
    b', s', ps := b, s, [];
    var i := 0;
    while i < len
      invariant 0 <= i <= (if len > 0 then len else 0) && i <= |b| && |b'| == |b| && |ps| == i
      invariant Valid(s') && s'.slice == s.slice
      invariant i > 0 ==> |s.slice| >= 2
      invariant Trace(s, ps) && s' == After(s, ps)
      invariant forall k :: 0 <= k < i ==> b'[k] == s.slice[ps[k]]
      invariant forall k :: i <= k < |b| ==> b'[k] == b[k]
    {
      var v, next := ReadSigned(s');
      if v.Failure? {
        return Failure(v.error), b', s', ps;
      }
      TraceExtend(s, ps, next.pos - 1);
      ps := ps + [next.pos - 1];
      s' := next;
      if i >= |b| {
        return Failure(IndexOutOfBounds), b', s', ps;
      }
      b' := b'[i := v.value];
      i := i + 1;
    }
    r := Success(i);
  }

  /** `read(b, off, len)` as the `InputStream` contract defines it: the
      range `off .. off+len-1` must lie inside `b`, it receives the bytes
      read, in order, and the rest of `b` is left alone. `ps` is the run of
      slice positions the reads took. */
  method ReadRange(s: Stream, b: seq<Int8>, off: int, len: int)
    returns (r: Result<int, StreamError>, b': seq<Int8>, s': Stream, ghost ps: seq<int>)
    requires Valid(s)
    ensures Valid(s') && s'.slice == s.slice && |b'| == |b|
    ensures r.Failure? <==>
      off < 0 || len < 0 || off + len > |b| || (len > 0 && |s.slice| < 2)
    ensures r.Failure? ==> b' == b && s' == s
    ensures r.Success? ==>
      && r.value == len && |ps| == len
      && Trace(s, ps) && s' == After(s, ps)
      && (forall i :: 0 <= i < len ==> b'[off + i] == s.slice[ps[i]])
      && (forall i :: 0 <= i < |b| && !(off <= i < off + len) ==> b'[i] == b[i])
  {
    b', s', ps := b, s, [];
    if off < 0 || len < 0 || off + len > |b| {
      return Failure(IndexOutOfBounds), b, s, ps;
    }
    if len > 0 && |s.slice| < 2 {
      return Failure(IllegalArgument), b, s, ps;
    }
    var i := 0;
    while i < len
      invariant 0 <= i <= len && |b'| == |b| && |ps| == i
      invariant Valid(s') && s'.slice == s.slice
      invariant Trace(s, ps) && s' == After(s, ps)
      invariant forall k :: 0 <= k < i ==> b'[off + k] == s.slice[ps[k]]
      invariant forall k :: 0 <= k < |b| && !(off <= k < off + i) ==> b'[k] == b[k]
    {
      var v, next := Read(s');
      ByteRoundTrip(s.slice[next.pos - 1]);
      TraceExtend(s, ps, next.pos - 1);
      ps := ps + [next.pos - 1];
      s' := next;
      b' := b'[off + i := ToByte(v.value)];
      i := i + 1;
    }
    r := Success(len);
  }

  /** A slice of `0xFF` bytes: as written, `read()` hands back `-1`, the
      value that tells the caller the stream has ended. */
  method SignedReadLooksLikeEnd() returns (v: int)
    ensures v == -1
  {
    var s := Stream([-1, -1, -1], 1);
    var r, s' := ReadSigned(s);
    v := r.value as int;
  }

  /** The same slice read through `Read` gives 255. */
  method UnsignedReadOfFF() returns (v: int)
    ensures v == 255
  {
    var s := Stream([-1, -1, -1], 1);
    var r, s' := Read(s);
    v := r.value;
  }

  /** A one-byte read into position 1 of a two-byte array: as written the
      byte lands at position 0 and position 1 keeps its old value. */
  method OffsetIgnored() returns (b': seq<Int8>)
    ensures b' == [5, 7]
  {
    var r, s';
    ghost var ps;
    r, b', s', ps := ReadRangeAsWritten(Stream([5, 5, 5, 5], 0), [7, 7], 1, 1);
  }

  /** The same read through `ReadRange` fills position 1. */
  method OffsetHonoured() returns (b': seq<Int8>)
    ensures b' == [7, 5]
  {
    var r, s';
    ghost var ps;
    r, b', s', ps := ReadRange(Stream([5, 5, 5, 5], 0), [7, 7], 1, 1);
  }
}
