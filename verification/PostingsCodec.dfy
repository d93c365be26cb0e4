/** The on-disk form of a posting list: unsigned varints over deltas that wrap modulo 2^64. */
module PostingsCodec {

  import opened MachineWords
  import opened Sequences

  datatype Posting = Posting(docId: UInt64, termFreq: Int64, positions: seq<Int64>)

  // ---- unsigned varints ----

  function Uvarint(x: nat): (b: seq<Byte>)
    ensures |b| >= 1
  {
    if x < 128 then [x] else [x % 128 + 128] + Uvarint(x / 128)
  }

  datatype Read = Bad | Got(value: UInt64, width: nat)

  const MaxWidth := 10

  /** 128 to the power `i`. */
  function Scale(i: nat): (s: nat)
    ensures s >= 1
  {
    if i == 0 then 1 else 128 * Scale(i - 1)
  }

  lemma ScaleNine()
    ensures Scale(9) == TwoTo63
  {
    assert Scale(3) == 128 * (128 * 128);
    assert Scale(6) == 128 * (128 * (128 * Scale(3)));
    assert Scale(9) == 128 * (128 * (128 * Scale(6)));
  }

  lemma {:induction false} ScaleMonotone(i: nat, j: nat)
    requires i <= j
    ensures Scale(i) <= Scale(j)
    decreases j - i
  {
    if i < j { ScaleMonotone(i, j - 1); }
  }

  /** The accumulator after the seven bits of the byte at index `i`: it stays below the next scale. */
  function Gather(acc: nat, bits: nat, i: nat): (r: nat)
    requires bits < 128 && acc < Scale(i)
    ensures r < Scale(i + 1)
  {
    BelowNext(bits, Scale(i), acc);
    acc + bits * Scale(i)
  }

  /** What a terminating byte at index `i` makes of the accumulator still fits in a word. */
  lemma LastByteFits(acc: nat, b: nat, i: nat)
    requires i <= 9 && b < 128 && acc < Scale(i) && (i == 9 ==> b <= 1)
    ensures Gather(acc, b, i) < TwoTo64
  {
    ScaleNine();
    if i < 9 {
      ScaleMonotone(i + 1, 9);
    }
  }

  lemma BelowNext(d: nat, k: nat, acc: nat)
    requires d < 128 && acc < k
    ensures acc + d * k < 128 * k
  {
    assert (127 - d) * k >= 0;
    assert (127 - d) * k == 127 * k - d * k;
  }

  /** Reads one varint whose first `i` bytes gave `acc`; a tenth byte above 1 and an eleventh byte overflow. */
  function ReadFrom(data: seq<Byte>, i: nat, acc: nat): (r: Read)
    requires acc < Scale(i)
    ensures r.Got? ==> i < r.width <= i + |data| && r.width <= MaxWidth
    decreases |data|
  {
    if data == [] || i >= MaxWidth then Bad
    else if data[0] >= 128 then
      ReadFrom(data[1..], i + 1, Gather(acc, data[0] - 128, i))
    else if i == MaxWidth - 1 && data[0] > 1 then Bad
    else
      LastByteFits(acc, data[0], i);
      Got(Gather(acc, data[0], i), i + 1)
  }

  function ReadUvarint(data: seq<Byte>): (r: Read)
    ensures r.Got? ==> 1 <= r.width <= |data| && r.width <= MaxWidth
  {
    ReadFrom(data, 0, 0)
  }

  lemma SplitWord(x: nat, i: nat)
    ensures x * Scale(i) == (x / 128) * Scale(i + 1) + (x % 128) * Scale(i)
  {
    var q, r, k := x / 128, x % 128, Scale(i);
    assert x == 128 * q + r;
    assert (128 * q + r) * k == q * (128 * k) + r * k;
  }

  lemma LongWordNeedsRoom(x: nat, i: nat)
    requires i <= 9 && x * Scale(i) < TwoTo64
    ensures x >= 128 ==> i < 9
    ensures i == 9 ==> x <= 1
  {
    ScaleNine();
    if i == 9 { assert x * TwoTo63 < 2 * TwoTo63; }
  }

  lemma MoreBytes(x: nat, rest: seq<Byte>)
    requires x >= 128
    ensures Uvarint(x) + rest != [] && (Uvarint(x) + rest)[0] == 128 + x % 128
    ensures (Uvarint(x) + rest)[1..] == Uvarint(x / 128) + rest
    ensures |Uvarint(x)| == 1 + |Uvarint(x / 128)|
  {
  }

  lemma {:induction false} ReadBack(x: nat, rest: seq<Byte>, i: nat, acc: nat)
    requires i <= 9 && acc < Scale(i) && acc + x * Scale(i) < TwoTo64
    ensures ReadFrom(Uvarint(x) + rest, i, acc) == Got(acc + x * Scale(i), i + |Uvarint(x)|)
    decreases x
  {
    LongWordNeedsRoom(x, i);
    if x >= 128 {
      MoreBytes(x, rest);
      SplitWord(x, i);
      ReadBack(x / 128, rest, i + 1, Gather(acc, x % 128, i));
    }
  }

  /** Every word parses back to its value and to the exact number of bytes it took, at most ten. */
  lemma UvarintRoundTrip(x: UInt64, rest: seq<Byte>)
    ensures ReadUvarint(Uvarint(x) + rest) == Got(x, |Uvarint(x)|)
    ensures |Uvarint(x)| <= MaxWidth
  {
    ReadBack(x, rest, 0, 0);
  }

  // ---- a posting list as words ----

  function Deltas(ps: seq<Int64>, prev: Int64): (ws: seq<UInt64>)
    ensures |ws| == |ps|
  {
    if ps == [] then []
    else [ToUnsigned(WrapSigned(ps[0] - prev))] + Deltas(ps[1..], ps[0])
  }

  function PostingWords(p: Posting, prev: UInt64): seq<UInt64> {
    [ToUnsigned(p.docId - prev), ToUnsigned(p.termFreq), ToUnsigned(|p.positions|)] + Deltas(p.positions, 0)
  }

  function Words(ps: seq<Posting>, prev: UInt64): seq<UInt64> {
    if ps == [] then [] else PostingWords(ps[0], prev) + Words(ps[1..], ps[0].docId)
  }

  /** The bytes of a sequence of words. */
  function Bytes(ws: seq<UInt64>): seq<Byte> {
    if ws == [] then [] else Uvarint(ws[0]) + Bytes(ws[1..])
  }

  lemma BytesFirst(w: UInt64, ws: seq<UInt64>)
    ensures Bytes([w] + ws) == Uvarint(w) + Bytes(ws)
  {
    assert ([w] + ws)[1..] == ws;
  }

  lemma {:induction false} BytesAppend(ws: seq<UInt64>, w: UInt64)
    ensures Bytes(ws + [w]) == Bytes(ws) + Uvarint(w)
  {
    if ws == [] {
      assert (ws + [w])[1..] == [];
    } else {
      BytesAppend(ws[1..], w);
      assert ws + [w] == [ws[0]] + (ws[1..] + [w]);
      BytesFirst(ws[0], ws[1..] + [w]);
      Regroup(Uvarint(ws[0]), Bytes(ws[1..]), Uvarint(w));
    }
  }

  lemma RestOfPush<T>(s: seq<T>, x: T)
    requires s != []
    ensures (s + [x])[0] == s[0] && (s + [x])[1..] == s[1..] + [x]
  {
  }

  lemma {:induction false} DeltasAppend(ps: seq<Int64>, prev: Int64, x: Int64)
    ensures Deltas(ps + [x], prev) ==
            Deltas(ps, prev) + [ToUnsigned(WrapSigned(x - (if ps == [] then prev else ps[|ps| - 1])))]
  {
    if ps == [] {
      assert (ps + [x])[1..] == [];
    } else {
      DeltasAppend(ps[1..], ps[0], x);
      RestOfPush(ps, x);
      Regroup([ToUnsigned(WrapSigned(ps[0] - prev))], Deltas(ps[1..], ps[0]),
              [ToUnsigned(WrapSigned(x - (if ps[1..] == [] then ps[0] else ps[|ps| - 1])))]);
    }
  }

  lemma {:induction false} WordsAppend(ps: seq<Posting>, prev: UInt64, p: Posting)
    ensures Words(ps + [p], prev) == Words(ps, prev) + PostingWords(p, if ps == [] then prev else ps[|ps| - 1].docId)
  {
    if ps == [] {
      assert (ps + [p])[1..] == [];
    } else {
      WordsAppend(ps[1..], ps[0].docId, p);
      RestOfPush(ps, p);
      Regroup(PostingWords(ps[0], prev), Words(ps[1..], ps[0].docId), PostingWords(p, ps[|ps| - 1].docId));
    }
  }

  method AppendWord(buf: seq<Byte>, ghost words: seq<UInt64>, w: UInt64) returns (r: seq<Byte>)
    requires buf == Bytes(words)
    ensures r == Bytes(words + [w])
  {
    BytesAppend(words, w);
    r := buf + Uvarint(w);
  }

  lemma NextDelta(head: seq<UInt64>, ps: seq<Int64>, j: nat, prev: Int64)
    requires j < |ps| && prev == if j == 0 then 0 else ps[j - 1]
    ensures head + Deltas(ps[..j + 1], 0) == head + Deltas(ps[..j], 0) + [ToUnsigned(WrapSigned(ps[j] - prev))]
  {
    FirstsPlusOne(ps, j);
    DeltasAppend(ps[..j], 0, ps[j]);
    Regroup(head, Deltas(ps[..j], 0), [ToUnsigned(WrapSigned(ps[j] - prev))]);
  }

  /** Appends the position deltas of a posting. */
  method EncodePositions(buf0: seq<Byte>, ghost head: seq<UInt64>, positions: seq<Int64>) returns (buf: seq<Byte>)
    requires buf0 == Bytes(head)
    ensures buf == Bytes(head + Deltas(positions, 0))
  {
    buf := buf0;
    assert head + Deltas(positions[..0], 0) == head;
    var prevPos: Int64 := 0;
    for j := 0 to |positions|
      invariant buf == Bytes(head + Deltas(positions[..j], 0))
      invariant prevPos == if j == 0 then 0 else positions[j - 1]
    {
      NextDelta(head, positions, j, prevPos);
      buf := AppendWord(buf, head + Deltas(positions[..j], 0), ToUnsigned(WrapSigned(positions[j] - prevPos)));
      prevPos := positions[j];
    }
    assert positions[..|positions|] == positions;
  }

  /** Appends one posting: document delta, frequency, count, then position deltas. */
  method EncodePosting(buf0: seq<Byte>, ghost words: seq<UInt64>, p: Posting, prevDocId: UInt64)
    returns (buf: seq<Byte>)
    requires buf0 == Bytes(words)
    ensures buf == Bytes(words + PostingWords(p, prevDocId))
  {
    var w0, w1, w2 := ToUnsigned(p.docId - prevDocId), ToUnsigned(p.termFreq), ToUnsigned(|p.positions|);
    buf := AppendWord(buf0, words, w0);
    buf := AppendWord(buf, words + [w0], w1);
    buf := AppendWord(buf, words + [w0] + [w1], w2);
    ghost var head := words + [w0] + [w1] + [w2];
    buf := EncodePositions(buf, head, p.positions);
    assert head + Deltas(p.positions, 0) == words + PostingWords(p, prevDocId);
  }

  method EncodePostings(postings: seq<Posting>) returns (buf: seq<Byte>)
    ensures buf == Bytes(Words(postings, 0))
  {
    buf := [];
    var prevDocId: UInt64 := 0;
    for i := 0 to |postings|
      invariant buf == Bytes(Words(postings[..i], 0))
      invariant prevDocId == if i == 0 then 0 else postings[i - 1].docId
    {
      buf := EncodePosting(buf, Words(postings[..i], 0), postings[i], prevDocId);
      WordsAppend(postings[..i], 0, postings[i]);
      FirstsPlusOne(postings, i);
      prevDocId := postings[i].docId;
    }
    assert postings[..|postings|] == postings;
  }

  // ---- decoding ----

  /** Allocating a slice longer than the runtime allows panics; `limit` is that length. */
  datatype Decoded = Panic | Decoded(postings: seq<Posting>)

  datatype Word = NoWord | Word(value: UInt64, rest: seq<Byte>)

  /** The first word of the data and what follows it. */
  function ReadWord(data: seq<Byte>): (w: Word)
    ensures w.Word? ==> |w.rest| < |data|
  {
    match ReadUvarint(data)
    case Bad => NoWord
    case Got(value, n) => Word(value, data[n..])
  }

  /** The position a signed delta leads to. */
  function Shifted(prev: Int64, delta: UInt64): Int64 {
    WrapSigned(prev + ToSigned(delta))
  }

  function Zeros(count: nat): (zs: seq<Int64>)
    ensures |zs| == count && forall z | z in zs :: z == 0
  {
    seq(count, _ => 0)
  }

  /** Reads `count` position deltas; after a bad varint the remaining positions keep their zero value. */
  function ReadPositions(data: seq<Byte>, count: nat, prev: Int64): (r: (seq<Int64>, seq<Byte>))
    ensures |r.0| == count && |r.1| <= |data|
    decreases count
  {
    if count == 0 then ([], data)
    else
      match ReadWord(data)
      case NoWord => (Zeros(count), data)
      case Word(delta, more) =>
        var x := Shifted(prev, delta);
        var (xs, rest) := ReadPositions(more, count - 1, x);
        ([x] + xs, rest)
  }

  datatype Header = NoHeader | Header(delta: UInt64, freq: UInt64, count: UInt64, rest: seq<Byte>)

  /** The three words in front of a posting's positions. */
  function ReadHeader(data: seq<Byte>): (h: Header)
    ensures h.Header? ==> |h.rest| < |data|
  {
    match ReadWord(data)
    case NoWord => NoHeader
    case Word(delta, d1) =>
      match ReadWord(d1)
      case NoWord => NoHeader
      case Word(freq, d2) =>
        match ReadWord(d2)
        case NoWord => NoHeader
        case Word(count, d3) => Header(delta, freq, count, d3)
  }

  function Prepend(p: Posting, d: Decoded): Decoded {
    if d.Panic? then Panic else Decoded([p] + d.postings)
  }

  datatype Step = Stop | Overflow | Next(posting: Posting, rest: seq<Byte>)

  /** One round of the decoder's loop, as a function. */
  function StepOf(h: Header, prev: UInt64, limit: nat): (step: Step)
    ensures step.Next? ==> h.Header? && |step.rest| <= |h.rest|
  {
    if h.NoHeader? then Stop
    else if h.count > limit then Overflow
    else
      var (positions, rest) := ReadPositions(h.rest, h.count, 0);
      Next(Posting(ToUnsigned(prev + h.delta), ToSigned(h.freq), positions), rest)
  }

  /** Decoding stops, keeping what it has, at the first bad varint of a posting's header. */
  function ReadPostings(data: seq<Byte>, prev: UInt64, limit: nat): Decoded
    decreases |data|
  {
    match StepOf(ReadHeader(data), prev, limit)
    case Stop => Decoded([])
    case Overflow => Panic
    case Next(p, rest) => Prepend(p, ReadPostings(rest, p.docId, limit))
  }

  /** The bytes of a word sequence start with its first word and go on with the rest. */
  lemma BytesStart(w: UInt64, ws: seq<UInt64>)
    ensures ReadWord(Bytes([w] + ws)) == Word(w, Bytes(ws))
  {
    BytesFirst(w, ws);
    UvarintRoundTrip(w, Bytes(ws));
    RestAfter(Uvarint(w), Bytes(ws));
  }

  lemma RestAfter<T>(a: seq<T>, b: seq<T>)
    ensures (a + b)[|a|..] == b
  {
  }

  /** Delta coding and decoding cancel modulo 2^64. */
  lemma SignedDeltaCancels(x: Int64, prev: Int64)
    ensures WrapSigned(prev + ToSigned(ToUnsigned(WrapSigned(x - prev)))) == x
  {
    WordCancels(WrapSigned(x - prev));
    if x - prev >= TwoTo63 {
      assert WrapSigned(x - prev) == x - prev - TwoTo64;
    } else if x - prev < -TwoTo63 {
      assert WrapSigned(x - prev) == x - prev + TwoTo64;
    } else {
      WordCancels(x - prev);
    }
  }

  lemma UnsignedDeltaCancels(x: UInt64, prev: UInt64)
    ensures ToUnsigned(prev + ToUnsigned(x - prev)) == x
  {
  }

  lemma ReadPositionsStep(data: seq<Byte>, w: UInt64, rest: seq<Byte>, count: nat, x: Int64, prev: Int64)
    requires ReadWord(data) == Word(w, rest) && w == ToUnsigned(WrapSigned(x - prev))
    ensures var (xs, end) := ReadPositions(rest, count, x); ReadPositions(data, count + 1, prev) == ([x] + xs, end)
  {
    SignedDeltaCancels(x, prev);
  }

  lemma {:induction false} PositionsRoundTrip(ps: seq<Int64>, prev: Int64, rest: seq<UInt64>)
    ensures ReadPositions(Bytes(Deltas(ps, prev) + rest), |ps|, prev) == (ps, Bytes(rest))
  {
    if ps == [] {
      assert Deltas(ps, prev) + rest == rest;
    } else {
      var w, ws := ToUnsigned(WrapSigned(ps[0] - prev)), Deltas(ps[1..], ps[0]) + rest;
      assert Deltas(ps, prev) + rest == [w] + ws;
      BytesStart(w, ws);
      ReadPositionsStep(Bytes([w] + ws), w, Bytes(ws), |ps| - 1, ps[0], prev);
      PositionsRoundTrip(ps[1..], ps[0], rest);
      assert ps == [ps[0]] + ps[1..];
    }
  }

  /** The header of a posting and its positions give the posting back. */
  lemma StepGives(p: Posting, prev: UInt64, h: Header, end: seq<Byte>, limit: nat)
    requires |p.positions| <= limit < TwoTo63
    requires h.Header? && h.delta == ToUnsigned(p.docId - prev) && h.freq == ToUnsigned(p.termFreq)
    requires h.count == ToUnsigned(|p.positions|)
    requires ReadPositions(h.rest, |p.positions|, 0) == (p.positions, end)
    ensures StepOf(h, prev, limit) == Next(p, end)
  {
    UnsignedDeltaCancels(p.docId, prev);
    WordCancels(p.termFreq);
    SmallWord(|p.positions|);
  }

  lemma WordCancels(x: Int64)
    ensures ToSigned(ToUnsigned(x)) == x
  {
  }

  lemma SmallWord(n: nat)
    requires n < TwoTo63
    ensures ToUnsigned(n) == n
  {
  }

  lemma ThreeInFront<T>(x: T, y: T, z: T, s: seq<T>)
    ensures [x, y, z] + s == [x] + ([y] + ([z] + s))
  {
  }

  lemma HeaderRoundTrip(w0: UInt64, w1: UInt64, w2: UInt64, ws: seq<UInt64>)
    ensures ReadHeader(Bytes([w0, w1, w2] + ws)) == Header(w0, w1, w2, Bytes(ws))
  {
    var t1 := [w2] + ws;
    var t0 := [w1] + t1;
    ThreeInFront(w0, w1, w2, ws);
    BytesStart(w2, ws);
    BytesStart(w1, t1);
    BytesStart(w0, t0);
  }

  lemma PostingRoundTrip(p: Posting, prev: UInt64, tail: seq<UInt64>, limit: nat)
    requires |p.positions| <= limit < TwoTo63
    ensures ReadPostings(Bytes(PostingWords(p, prev) + tail), prev, limit) ==
            Prepend(p, ReadPostings(Bytes(tail), p.docId, limit))
  {
    var w0, w1, w2 := ToUnsigned(p.docId - prev), ToUnsigned(p.termFreq), ToUnsigned(|p.positions|);
    var body := Deltas(p.positions, 0) + tail;
    assert PostingWords(p, prev) + tail == [w0, w1, w2] + body;
    HeaderRoundTrip(w0, w1, w2, body);
    PositionsRoundTrip(p.positions, 0, tail);
    var h := Header(w0, w1, w2, Bytes(body));
    StepGives(p, prev, h, Bytes(tail), limit);
    PostingsByStep(Bytes([w0, w1, w2] + body), h, prev, limit);
  }

  lemma PrependFirst(ps: seq<Posting>)
    requires ps != []
    ensures Prepend(ps[0], Decoded(ps[1..])) == Decoded(ps)
  {
    assert ps == [ps[0]] + ps[1..];
  }

  lemma {:induction false} WordsRoundTrip(ps: seq<Posting>, prev: UInt64, limit: nat)
    requires limit < TwoTo63
    requires forall i | 0 <= i < |ps| :: |ps[i].positions| <= limit
    ensures ReadPostings(Bytes(Words(ps, prev)), prev, limit) == Decoded(ps)
  {
    if ps != [] {
      PostingRoundTrip(ps[0], prev, Words(ps[1..], ps[0].docId), limit);
      WordsRoundTrip(ps[1..], ps[0].docId, limit);
      PrependFirst(ps);
    }
  }

  lemma Dropped(data: seq<Byte>, i: nat, j: nat)
    requires i + j <= |data|
    ensures data[i..][j..] == data[i + j..]
  {
  }

  method DecodeWord(data: seq<Byte>, offset: nat) returns (w: Word, next: nat)
    requires offset <= |data|
    ensures w == ReadWord(data[offset..])
    ensures w.Word? ==> offset < next <= |data| && w.rest == data[next..]
  {
    var r := ReadUvarint(data[offset..]);
    if r.Bad? { return NoWord, offset; }
    Dropped(data, offset, r.width);
    next := offset + r.width;
    w := Word(r.value, data[next..]);
  }

  /** The three header reads of the decoder; none of them may be bad. */
  method DecodeHeader(data: seq<Byte>, start: nat) returns (h: Header, offset: nat)
    requires start <= |data|
    ensures h == ReadHeader(data[start..])
    ensures h.Header? ==> start < offset <= |data| && h.rest == data[offset..]
  {
    var first, second, third;
    first, offset := DecodeWord(data, start);
    if first.NoWord? { return NoHeader, offset; }
    second, offset := DecodeWord(data, offset);
    if second.NoWord? { return NoHeader, offset; }
    third, offset := DecodeWord(data, offset);
    if third.NoWord? { return NoHeader, offset; }
    h := Header(first.value, second.value, third.value, third.rest);
  }

  /** The positions already read, followed by what is still to read, are the whole answer. */
  ghost predicate PositionsSoFar(all: (seq<Int64>, seq<Byte>), done: seq<Int64>, data: seq<Byte>, count: nat,
                                 prev: Int64)
  {
    all == (done + ReadPositions(data, count, prev).0, ReadPositions(data, count, prev).1)
  }

  lemma PositionsProgress(all: (seq<Int64>, seq<Byte>), done: seq<Int64>, data: seq<Byte>, w: Word, count: nat,
                          prev: Int64)
    requires count > 0 && PositionsSoFar(all, done, data, count, prev) && w == ReadWord(data)
    ensures w.NoWord? ==> all == (done + Zeros(count), data)
    ensures w.Word? ==> PositionsSoFar(all, done + [Shifted(prev, w.value)], w.rest, count - 1, Shifted(prev, w.value))
  {
    if w.Word? {
      var x := Shifted(prev, w.value);
      Regroup(done, [x], ReadPositions(w.rest, count - 1, x).0);
    }
  }

  lemma PositionsDone(all: (seq<Int64>, seq<Byte>), done: seq<Int64>, data: seq<Byte>, prev: Int64)
    requires PositionsSoFar(all, done, data, 0, prev)
    ensures all == (done, data)
  {
    assert done + [] == done;
  }

  lemma PositionsStart(data: seq<Byte>, count: nat)
    ensures PositionsSoFar(ReadPositions(data, count, 0), [], data, count, 0)
  {
    var xs := ReadPositions(data, count, 0).0;
    assert [] + xs == xs;
  }

  /** The position loop of the decoder. */
  method DecodePositions(data: seq<Byte>, start: nat, count: nat) returns (positions: seq<Int64>, offset: nat)
    requires start <= |data|
    ensures start <= offset <= |data|
    ensures (positions, data[offset..]) == ReadPositions(data[start..], count, 0)
  {
    PositionsStart(data[start..], count);
    positions, offset := DecodePositionsInto(data, start, count, ReadPositions(data[start..], count, 0));
  }

  method DecodePositionsInto(data: seq<Byte>, start: nat, count: nat, ghost all: (seq<Int64>, seq<Byte>))
    returns (positions: seq<Int64>, offset: nat)
    requires start <= |data| && PositionsSoFar(all, [], data[start..], count, 0)
    ensures start <= offset <= |data|
    ensures (positions, data[offset..]) == all
  {
    positions := [];
    var left: nat := count;
    offset := start;
    var prevPos: Int64 := 0;
    while left > 0
      invariant start <= offset <= |data|
      invariant PositionsSoFar(all, positions, data[offset..], left, prevPos)
      decreases left
    {
      var w, next := DecodeWord(data, offset);
      PositionsProgress(all, positions, data[offset..], w, left, prevPos);
      if w.NoWord? {
        return positions + Zeros(left), offset;
      }
      offset := next;
      prevPos := Shifted(prevPos, w.value);
      positions, left := positions + [prevPos], left - 1;
    }
    PositionsDone(all, positions, data[offset..], prevPos);
  }

  lemma PostingsByStep(data: seq<Byte>, h: Header, prev: UInt64, limit: nat)
    requires ReadHeader(data) == h
    ensures var step := StepOf(h, prev, limit);
            && (step.Stop? ==> ReadPostings(data, prev, limit) == Decoded([]))
            && (step.Overflow? ==> ReadPostings(data, prev, limit) == Panic)
            && (step.Next? ==> ReadPostings(data, prev, limit)
                               == Prepend(step.posting, ReadPostings(step.rest, step.posting.docId, limit)))
  {
  }

  method DecodeNext(data: seq<Byte>, start: nat, prevDocId: UInt64, limit: nat) returns (step: Step, offset: nat)
    requires start <= |data|
    ensures step == StepOf(ReadHeader(data[start..]), prevDocId, limit)
    ensures step.Next? ==> start < offset <= |data| && step.rest == data[offset..]
  {
    var h, begin := DecodeHeader(data, start);
    offset := start;
    if h.NoHeader? {
      return Stop, start;
    }
    if h.count > limit {
      return Overflow, start;
    }
    step, offset := DecodeBody(data, begin, h, prevDocId, limit);
  }

  method DecodeBody(data: seq<Byte>, begin: nat, h: Header, prevDocId: UInt64, limit: nat)
    returns (step: Step, offset: nat)
    requires h.Header? && begin <= |data| && h.rest == data[begin..] && h.count <= limit
    ensures step == StepOf(h, prevDocId, limit)
    ensures begin <= offset <= |data| && step.Next? && step.rest == data[offset..]
  {
    var positions, end := DecodePositions(data, begin, h.count);
    return Next(Posting(ToUnsigned(prevDocId + h.delta), ToSigned(h.freq), positions), data[end..]), end;
  }

  function PrependAll(ps: seq<Posting>, d: Decoded): Decoded {
    if d.Panic? then Panic else Decoded(ps + d.postings)
  }

  lemma PrependAllAppend(ps: seq<Posting>, p: Posting, d: Decoded)
    ensures PrependAll(ps, Prepend(p, d)) == PrependAll(ps + [p], d)
  {
    if d.Decoded? { assert ps + ([p] + d.postings) == ps + [p] + d.postings; }
  }

  /** The postings already read, followed by what the rest of the data holds, are the whole answer. */
  ghost predicate PostingsSoFar(all: Decoded, done: seq<Posting>, data: seq<Byte>, prev: UInt64, limit: nat) {
    all == PrependAll(done, ReadPostings(data, prev, limit))
  }

  lemma PostingsStart(data: seq<Byte>, limit: nat)
    ensures PostingsSoFar(ReadPostings(data, 0, limit), [], data[0..], 0, limit)
  {
    assert data[0..] == data;
    var all := ReadPostings(data, 0, limit);
    if all.Decoded? { assert [] + all.postings == all.postings; }
  }

  lemma PostingsProgress(all: Decoded, done: seq<Posting>, data: seq<Byte>, prev: UInt64, limit: nat, step: Step)
    requires PostingsSoFar(all, done, data, prev, limit) && step == StepOf(ReadHeader(data), prev, limit)
    ensures step.Stop? ==> all == Decoded(done)
    ensures step.Overflow? ==> all == Panic
    ensures step.Next? ==> PostingsSoFar(all, done + [step.posting], step.rest, step.posting.docId, limit)
  {
    PostingsByStep(data, ReadHeader(data), prev, limit);
    match step
    case Stop => assert done + [] == done;
    case Overflow =>
    case Next(p, rest) => PrependAllAppend(done, p, ReadPostings(rest, p.docId, limit));
  }

  /** The decoder: an offset into the buffer and the previous document id. */
  method DecodePostings(data: seq<Byte>, limit: nat) returns (r: Decoded)
    ensures r == ReadPostings(data, 0, limit)
  {
    ghost var all := ReadPostings(data, 0, limit);
    PostingsStart(data, limit);
    r := DecodePostingsInto(data, limit, all);
  }

  method DecodePostingsInto(data: seq<Byte>, limit: nat, ghost all: Decoded) returns (r: Decoded)
    requires PostingsSoFar(all, [], data[0..], 0, limit)
    ensures r == all
  {
    var postings: seq<Posting> := [];
    var offset := 0;
    var prevDocId: UInt64 := 0;
    while offset < |data|
      invariant 0 <= offset <= |data|
      invariant PostingsSoFar(all, postings, data[offset..], prevDocId, limit)
      decreases |data| - offset
    {
      var step, end := DecodeNext(data, offset, prevDocId, limit);
      PostingsProgress(all, postings, data[offset..], prevDocId, limit, step);
      match step {
        case Stop => return Decoded(postings);
        case Overflow => return Panic;
        case Next(p, rest) =>
          prevDocId := p.docId;
          postings := postings + [p];
          offset := end;
      }
    }
    PostingsProgress(all, postings, data[offset..], prevDocId, limit, StepOf(ReadHeader([]), prevDocId, limit));
    return Decoded(postings);
  }

  /** Decoding what was encoded gives back every posting list, sorted or not. */
  method RoundTrip(postings: seq<Posting>, limit: nat) returns (r: Decoded)
    requires limit < TwoTo63
    requires forall i | 0 <= i < |postings| :: |postings[i].positions| <= limit
    ensures r == Decoded(postings)
  {
    var buf := EncodePostings(postings);
    WordsRoundTrip(postings, 0, limit);
    r := DecodePostings(buf, limit);
  }
}
