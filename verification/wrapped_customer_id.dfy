/** `wrapped_customer_id`: the tick-label form of a customer id, cut into
    chunks of eight characters joined by line breaks. */
module WrappedCustomerId {

  const RowLength: nat := 8

  function Min(a: int, b: int): (m: int) {
    if a <= b then a else b
  }

  /** Python's `s[i:j]` for non-negative bounds: both are clamped to the
      length, and an empty slice results when `i` is not below the end. */
  function PySlice(s: string, i: nat, j: nat): (t: string)
    ensures |t| == if i < Min(j, |s|) then Min(j, |s|) - i else 0
    ensures forall k :: 0 <= k < |t| ==> t[k] == s[i + k]
  {
    var hi := Min(j, |s|);
    if i < hi then s[i..hi] else []
  }

  /** `len(range(0, len(s), RowLength))`: the number of chunk starts. */
  function ChunkCount(n: nat): (count: nat) {
    (n + RowLength - 1) / RowLength
  }

  /** `[s[i:i+8] for i in range(0, len(s), 8)]`. */
  function Chunks(s: string): (parts: seq<string>) {
    seq(ChunkCount(|s|), k requires 0 <= k < ChunkCount(|s|) =>
      PySlice(s, k * RowLength, k * RowLength + RowLength))
  }

  /** `sep.join(parts)`. */
  function Join(parts: seq<string>, sep: char): (joined: string)
    decreases |parts|
  {
    if |parts| == 0 then ""
    else if |parts| == 1 then parts[0]
    else parts[0] + [sep] + Join(parts[1..], sep)
  }

  /** `wrapped_customer_id(customer_id)`. */
  function Wrapped(customerId: string): (shown: string) {
    Join(Chunks(customerId), '\n')
  }

  /** Every character except `ch`, in order. */
  function Without(s: string, ch: char): (kept: string)
    decreases |s|
  {
    if |s| == 0 then "" else (if s[0] == ch then "" else [s[0]]) + Without(s[1..], ch)
  }

  /** The parts laid end to end. */
  function Concat(parts: seq<string>): (whole: string)
    decreases |parts|
  {
    if |parts| == 0 then "" else parts[0] + Concat(parts[1..])
  }

  /** `s.split(sep)`: the pieces between separators, in order; there is
      always at least one piece, and `"".split(sep)` is `[""]`. */
  function Split(s: string, sep: char): (pieces: seq<string>)
    ensures |pieces| >= 1
    decreases |s|
  {
    if |s| == 0 then [""]
    else
      var rest := Split(s[1..], sep);
      if s[0] == sep then [""] + rest
      else [[s[0]] + rest[0]] + rest[1..]
  }

  /** The empty id gives the empty label. */
  lemma WrappedEmpty()
    ensures Wrapped("") == ""
  {
  }

  /** Every chunk holds one to eight characters, and all but the last exactly
      eight; an id of `n` characters gives `ceil(n / 8)` chunks. */
  lemma ChunkShape(s: string)
    ensures |Chunks(s)| == ChunkCount(|s|)
    ensures forall k :: 0 <= k < |Chunks(s)| ==> 0 < |Chunks(s)[k]| <= RowLength
    ensures forall k :: 0 <= k < |Chunks(s)| - 1 ==> |Chunks(s)[k]| == RowLength
  {
    var n := ChunkCount(|s|);
    forall k | 0 <= k < n
      ensures k * RowLength < |s|
      ensures k < n - 1 ==> k * RowLength + RowLength <= |s|
    {
      assert (k + 1) * RowLength <= |s| + RowLength - 1;
      if k < n - 1 {
        assert (k + 2) * RowLength <= |s| + RowLength - 1;
      }
    }
  }

  /** The chunks of an id longer than eight characters: its first eight, then
      the chunks of the rest. */
  lemma ChunksCons(s: string)
    requires |s| > RowLength
    ensures Chunks(s) == [s[..RowLength]] + Chunks(s[RowLength..])
  {
    var rest := s[RowLength..];
    assert ChunkCount(|s|) == 1 + ChunkCount(|rest|);
    forall k | 0 <= k < ChunkCount(|s|)
      ensures Chunks(s)[k] == ([s[..RowLength]] + Chunks(rest))[k]
    {
      if k > 0 {
        var j := k - 1;
        assert k * RowLength == j * RowLength + RowLength;
        var a := PySlice(s, k * RowLength, k * RowLength + RowLength);
        var b := PySlice(rest, j * RowLength, j * RowLength + RowLength);
        assert |a| == |b|;
        assert forall m :: 0 <= m < |a| ==> a[m] == b[m];
      }
    }
  }

  /** Laid end to end, the chunks give back the id. */
  lemma {:induction false} ConcatChunks(s: string)
    ensures Concat(Chunks(s)) == s
    decreases |s|
  {
    if |s| == 0 {
    } else if |s| <= RowLength {
      ShortChunks(s);
      assert Concat([s]) == s + Concat([]);
    } else {
      ChunksCons(s);
      var cs := Chunks(s);
      assert cs[1..] == Chunks(s[RowLength..]);
      ConcatChunks(s[RowLength..]);
      assert s == s[..RowLength] + s[RowLength..];
    }
  }

  lemma {:induction false} WithoutAppend(a: string, b: string, ch: char)
    ensures Without(a + b, ch) == Without(a, ch) + Without(b, ch)
    decreases |a|
  {
    if |a| > 0 {
      var head: string := if a[0] == ch then "" else [a[0]];
      assert (a + b)[0] == a[0] && (a + b)[1..] == a[1..] + b;
      assert Without(a + b, ch) == head + Without(a[1..] + b, ch);
      WithoutAppend(a[1..], b, ch);
      assert head + (Without(a[1..], ch) + Without(b, ch)) == (head + Without(a[1..], ch)) + Without(b, ch);
    } else {
      assert a + b == b;
    }
  }

  lemma {:induction false} WithoutAbsent(s: string, ch: char)
    requires ch !in s
    ensures Without(s, ch) == s
    decreases |s|
  {
    if |s| > 0 {
      WithoutAbsent(s[1..], ch);
      assert s == [s[0]] + s[1..];
    }
  }

  /** Deleting the separators from a join of separator-free parts gives the
      parts laid end to end. */
  lemma {:induction false} WithoutJoin(parts: seq<string>, sep: char)
    requires forall k :: 0 <= k < |parts| ==> sep !in parts[k]
    ensures Without(Join(parts, sep), sep) == Concat(parts)
    decreases |parts|
  {
    if |parts| == 1 {
      WithoutAbsent(parts[0], sep);
      assert Concat(parts) == parts[0] + Concat([]);
    } else if |parts| > 1 {
      WithoutJoin(parts[1..], sep);
      WithoutAppend(parts[0] + [sep], Join(parts[1..], sep), sep);
      WithoutAppend(parts[0], [sep], sep);
      WithoutAbsent(parts[0], sep);
      assert Without([sep], sep) == "";
    }
  }

  /** For an id without line breaks, deleting the line breaks from the label
      gives the id back. */
  lemma UnwrapWrapped(customerId: string)
    requires '\n' !in customerId
    ensures Without(Wrapped(customerId), '\n') == customerId
  {
    ChunksSepFree(customerId, '\n');
    WithoutJoin(Chunks(customerId), '\n');
    ConcatChunks(customerId);
  }

  /** A chunk holds only characters of the id. */
  lemma ChunksSepFree(s: string, sep: char)
    requires sep !in s
    ensures forall k :: 0 <= k < |Chunks(s)| ==> sep !in Chunks(s)[k]
  {
    var cs := Chunks(s);
    forall k | 0 <= k < |cs| ensures sep !in cs[k] {
      forall m | 0 <= m < |cs[k]| ensures cs[k][m] != sep {
        assert cs[k][m] == s[k * RowLength + m];
      }
    }
  }

  /** Splitting a separator-free prefix followed by `t`: the prefix is glued
      to the first piece of `t`. */
  lemma {:induction false} SplitPrefix(p: string, t: string, sep: char)
    requires sep !in p
    ensures Split(p + t, sep) == [p + Split(t, sep)[0]] + Split(t, sep)[1..]
    decreases |p|
  {
    if |p| > 0 {
      assert (p + t)[0] == p[0] && (p + t)[1..] == p[1..] + t;
      SplitPrefix(p[1..], t, sep);
      assert [p[0]] + (p[1..] + Split(t, sep)[0]) == p + Split(t, sep)[0];
    } else {
      var pieces := Split(t, sep);
      assert p + t == t && p + pieces[0] == pieces[0];
      assert pieces == [pieces[0]] + pieces[1..];
    }
  }

  /** A separator-free string splits into itself. */
  lemma SplitSepFree(p: string, sep: char)
    requires sep !in p
    ensures Split(p, sep) == [p]
  {
    SplitPrefix(p, "", sep);
    assert p + "" == p;
  }

  /** Splitting a join of separator-free parts gives the parts back, so the
      separator stands exactly between consecutive parts. */
  lemma {:induction false} SplitJoin(parts: seq<string>, sep: char)
    requires |parts| >= 1
    requires forall k :: 0 <= k < |parts| ==> sep !in parts[k]
    ensures Split(Join(parts, sep), sep) == parts
    decreases |parts|
  {
    if |parts| == 1 {
      SplitSepFree(parts[0], sep);
    } else {
      var tail := Join(parts[1..], sep);
      SplitJoin(parts[1..], sep);
      assert parts[0] + [sep] + tail == parts[0] + ([sep] + tail);
      SplitPrefix(parts[0], [sep] + tail, sep);
      assert ([sep] + tail)[0] == sep && ([sep] + tail)[1..] == tail;
      assert Split([sep] + tail, sep) == [""] + parts[1..];
      assert parts[0] + "" == parts[0];
    }
  }

  /** The lines of the label of a non-empty id without line breaks are its
      chunks: ceil(n / 8) lines of 1 to 8 characters, all but the last of
      exactly 8 (`ChunkShape`). */
  lemma LinesOfWrapped(customerId: string)
    requires 0 < |customerId| && '\n' !in customerId
    ensures Split(Wrapped(customerId), '\n') == Chunks(customerId)
  {
    ChunkShape(customerId);
    assert |Chunks(customerId)| >= 1;
    ChunksSepFree(customerId, '\n');
    SplitJoin(Chunks(customerId), '\n');
  }

  /** An id of at most eight characters is its own label. */
  lemma ShortIdUnchanged(customerId: string)
    requires |customerId| <= RowLength
    ensures Wrapped(customerId) == customerId
  {
    if |customerId| > 0 {
      ShortChunks(customerId);
    }
  }

  lemma ShortChunks(s: string)
    requires 0 < |s| <= RowLength
    ensures Chunks(s) == [s]
  {
    assert ChunkCount(|s|) == 1;
    assert Chunks(s)[0] == PySlice(s, 0, RowLength) == s;
  }
}
