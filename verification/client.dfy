/**
  The client's side of a finished analysis: reading ANALYZE_DONE and putting the result
  document together from the frames that follow it.
  */
module ClientResults {
  import opened Wire
  import L = Lines
  import S = Sessions

  const ANALYZE_DONE: nat := 0x21
  const RESULT_BEGIN: nat := 0x31
  const RESULT_CHUNK: nat := 0x32
  const RESULT_END: nat := 0x33
  const ERROR: nat := 0x7E
  const MAX_CSV: nat := 64 * 1024 * 1024

  datatype Inbound = Inbound(kind: nat, payload: Bytes)

  /** The document, or why there is none; `Starved` when the connection ends first. */
  datatype Outcome = Received(text: Bytes) | Refused(payload: Bytes) | OutOfRange | Malformed | Unexpected(kind: nat)
                   | SizeMismatch(declared: int, got: nat) | Starved

  // ---------------------------------------------------------------- what a document is made of

  function Payloads(fs: seq<Inbound>): Bytes {
    if fs == [] then [] else Payloads(fs[..|fs|-1]) + fs[|fs|-1].payload
  }

  /** The first n frames are a document of this text: its size, its pieces, its end. */
  ghost predicate Delivers(fs: seq<Inbound>, n: nat, text: Bytes) {
    && 2 <= n <= |fs| && |text| <= MAX_CSV
    && fs[0].kind == RESULT_BEGIN && fs[n-1].kind == RESULT_END
    && ReadField(K64, fs[0].payload).Got? && ReadField(K64, fs[0].payload).f == U64(|text|)
    && (forall i | 1 <= i < n - 1 :: fs[i].kind == RESULT_CHUNK)
    && Payloads(fs[1..n-1]) == text
  }

  /** At most one document starts a sequence of frames. */
  lemma DeliversOne(fs: seq<Inbound>, n: nat, text: Bytes, m: nat, other: Bytes)
    requires Delivers(fs, n, text) && Delivers(fs, m, other)
    ensures n == m && text == other
  {
  }

  method ReadSize(payload: Bytes) returns (ok: bool, v: nat)
    ensures ok == ReadField(K64, payload).Got? && (ok ==> ReadField(K64, payload).f == U64(v))
  {
    hide ReadField;
    NumberRead(payload);
    var reader := new PayloadReader(payload);
    var r := reader.Get(K64);
    return r.Got?, if r.Got? then r.f.v else 0;
  }

  lemma NumberRead(payload: Bytes)
    ensures ReadField(K64, payload).Got? ==> ReadField(K64, payload).f.U64?
  {
    hide Value;
  }

  /** The first n frames are some frame, pieces of `size` octets in all, and the end. */
  ghost predicate Pieces(fs: seq<Inbound>, n: nat, size: int) {
    && 2 <= n <= |fs| && fs[n-1].kind == RESULT_END
    && (forall i | 1 <= i < n - 1 :: fs[i].kind == RESULT_CHUNK) && |Payloads(fs[1..n-1])| == size
  }

  /** The first frame behind the pieces decides: the end, an error, another frame, or nothing. */
  ghost predicate StopsAt(fs: seq<Inbound>, stop: nat, declared: int, r: Outcome, used: nat) {
    && 1 <= stop <= |fs| && (forall i | 1 <= i < stop :: fs[i].kind == RESULT_CHUNK)
    && if stop == |fs| then r == Starved && used == |fs|
       else
         var kind, text := fs[stop].kind, Payloads(fs[1..stop]);
         && kind != RESULT_CHUNK && used == stop + 1
         && r == if kind == RESULT_END then
                   if |text| == declared then Received(text) else SizeMismatch(declared, |text|)
                 else if kind == ERROR then Refused(fs[stop].payload)
                 else Unexpected(kind)
  }

  /** Collects pieces up to RESULT_END; only then is the size compared with the announced one. */
  method GatherPieces(fs: seq<Inbound>, declared: int) returns (r: Outcome, used: nat)
    requires |fs| > 0
    ensures r.Received? ==> Pieces(fs, used, declared) && Payloads(fs[1..used-1]) == r.text
    ensures forall n | Pieces(fs, n, declared) :: r.Received? && used == n
    ensures exists stop :: StopsAt(fs, stop, declared, r, used)
  {
    var buffer: Bytes := [];
    var i := 1;
    while i < |fs|
      invariant 1 <= i <= |fs|
      invariant forall j | 1 <= j < i :: fs[j].kind == RESULT_CHUNK
      invariant buffer == Payloads(fs[1..i])
    {
      var f := fs[i];
      if f.kind == RESULT_CHUNK {
        assert fs[1..i+1][..i-1] == fs[1..i];
        buffer := buffer + f.payload;
        i := i + 1;
      } else if f.kind == RESULT_END {
        if |buffer| != declared {
          assert StopsAt(fs, i, declared, SizeMismatch(declared, |buffer|), i + 1);
          return SizeMismatch(declared, |buffer|), i + 1;
        }
        assert StopsAt(fs, i, declared, Received(buffer), i + 1);
        return Received(buffer), i + 1;
      } else if f.kind == ERROR {
        assert StopsAt(fs, i, declared, Refused(f.payload), i + 1);
        return Refused(f.payload), i + 1;
      } else {
        assert StopsAt(fs, i, declared, Unexpected(f.kind), i + 1);
        return Unexpected(f.kind), i + 1;
      }
    }
    assert StopsAt(fs, i, declared, Starved, |fs|);
    return Starved, |fs|;
  }

  /** The cast of an unsigned 64-bit size to a signed one. */
  function Signed(v: nat): int {
    if v < 0x8000_0000_0000_0000 then v else v - 0x1_0000_0000_0000_0000
  }

  /** Why there is no document when the frames do not even begin one. */
  ghost predicate Fails(fs: seq<Inbound>, r: Outcome, used: nat) {
    if fs == [] then r == Starved && used == 0
    else
      && used == 1
      && if fs[0].kind == ERROR then r == Refused(fs[0].payload)
         else if fs[0].kind != RESULT_BEGIN then r == Unexpected(fs[0].kind)
         else if ReadField(K64, fs[0].payload).Short? then r == Malformed
         else
           && r == OutOfRange
           && exists v: nat :: Signed(v) > MAX_CSV && ReadField(K64, fs[0].payload).f == U64(v)
  }

  /** The size a result is announced with, as the client takes it. */
  ghost predicate Announced(fs: seq<Inbound>, declared: int) {
    && fs != [] && fs[0].kind == RESULT_BEGIN && declared <= MAX_CSV
    && exists v: nat :: Signed(v) == declared && ReadField(K64, fs[0].payload).Got?
                        && ReadField(K64, fs[0].payload).f == U64(v)
  }

  /** The cast keeps the number modulo 2^64 and brings it into the signed range. */
  lemma SignedIs(v: nat)
    requires v < 0x1_0000_0000_0000_0000
    ensures -0x8000_0000_0000_0000 <= Signed(v) < 0x8000_0000_0000_0000
    ensures Signed(v) % 0x1_0000_0000_0000_0000 == v
  {
  }

  /**
    A document is returned exactly when the frames deliver one, and then that one; otherwise the
    outcome says which frame was in the way.
    */
  method ReceiveResult(expectedSize: int, fs: seq<Inbound>) returns (r: Outcome, used: nat)
    ensures r.Received? ==> Delivers(fs, used, r.text)
    ensures if !(0 <= expectedSize <= MAX_CSV) then r == OutOfRange && used == 0
            else
              || Fails(fs, r, used)
              || exists declared, stop :: Announced(fs, declared) && StopsAt(fs, stop, declared, r, used)
    ensures 0 <= expectedSize <= MAX_CSV ==>
              forall n, text | Delivers(fs, n, text) :: r == Received(text) && used == n
  {
    hide ReadField, Payloads;
    if expectedSize < 0 || expectedSize > MAX_CSV {
      return OutOfRange, 0;
    }
    if fs == [] { return Starved, 0; }
    if fs[0].kind == ERROR { return Refused(fs[0].payload), 1; }
    if fs[0].kind != RESULT_BEGIN { return Unexpected(fs[0].kind), 1; }
    var ok, declared := ReadSize(fs[0].payload);
    if !ok { return Malformed, 1; }
    if Signed(declared) > MAX_CSV { return OutOfRange, 1; }
    SizeFits(fs[0].payload);
    r, used := GatherPieces(fs, Signed(declared));
    assert Announced(fs, Signed(declared));
    forall n, text | Delivers(fs, n, text) ensures r == Received(text) && used == n {
      assert Pieces(fs, n, Signed(declared));
    }
  }

  lemma SizeFits(payload: Bytes)
    requires ReadField(K64, payload).Got?
    ensures ReadField(K64, payload).f.U64? && ReadField(K64, payload).f.v < 0x1_0000_0000_0000_0000
  {
    hide Value;
    PowValues();
    assert |payload[..8]| == 8;
  }

  // ---------------------------------------------------------------- what the server sends

  /** The frame of a reply about the result. */
  function FrameOf(m: S.Msg): Inbound
    requires m.ResultBegin? || m.ResultChunk? || m.ResultEnd?
    requires m.ResultChunk? ==> IsOctets(m.text)
  {
    match m
    case ResultBegin(size) => Inbound(RESULT_BEGIN, EncodeAll([U64(size), Str("result.csv")]))
    case ResultChunk(text) => Inbound(RESULT_CHUNK, text)
    case ResultEnd => Inbound(RESULT_END, [])
  }

  predicate IsOctets(s: string) {
    forall i | 0 <= i < |s| :: s[i] as int < 256
  }

  ghost predicate IsPiece(m: S.Msg) {
    m.ResultChunk? && IsOctets(m.text)
  }

  function PieceFrames(ms: seq<S.Msg>): seq<Inbound>
    requires forall i | 0 <= i < |ms| :: IsPiece(ms[i])
  {
    if ms == [] then []
    else
      assert IsPiece(ms[0]);
      [FrameOf(ms[0])] + PieceFrames(ms[1..])
  }

  lemma {:induction false} PayloadsCons(f: Inbound, fs: seq<Inbound>)
    ensures Payloads([f] + fs) == f.payload + Payloads(fs)
  {
    if fs == [] {
      assert [f] + fs == [f] && [f][..0] == [];
    } else {
      var init := fs[..|fs|-1];
      PayloadsCons(f, init);
      assert ([f] + fs)[..|fs|] == [f] + init && ([f] + fs)[|fs|] == fs[|fs|-1];
      L.Regroup(f.payload, Payloads(init), fs[|fs|-1].payload);
    }
  }

  /** The pieces of a result are octets, and their payloads make it up. */
  lemma {:induction false} PiecesAreFrames(text: Bytes)
    ensures forall i | 0 <= i < |S.Pieces(text)| :: IsPiece(S.Pieces(text)[i])
    ensures var fs := PieceFrames(S.Pieces(text));
            && |fs| == |S.Pieces(text)| && Payloads(fs) == text
            && forall i | 0 <= i < |fs| :: fs[i].kind == RESULT_CHUNK
    decreases |text|
  {
    var ps := S.Pieces(text);
    if text != [] {
      var n := if |text| < S.RESULT_CHUNK then |text| else S.RESULT_CHUNK;
      PiecesAreFrames(text[n..]);
      if n == |text| { assert text[..n] == text && text[n..] == []; }
      assert ps == [S.ResultChunk(text[..n])] + S.Pieces(text[n..]);
      assert ps[1..] == S.Pieces(text[n..]);
      assert forall i | 0 < i < |ps| :: ps[i] == ps[1..][i-1];
      PayloadsCons(FrameOf(ps[0]), PieceFrames(ps[1..]));
      assert text == text[..n] + text[n..];
    }
  }

  /** The frames in which a server sends a result. */
  function ResultFrames(text: Bytes): seq<Inbound> {
    PiecesAreFrames(text);
    [FrameOf(S.ResultBegin(|text|))] + PieceFrames(S.Pieces(text)) + [FrameOf(S.ResultEnd)]
  }

  /** A result is delivered whole, whatever follows it on the connection. */
  lemma ResultArrives(text: Bytes, rest: seq<Inbound>)
    requires |text| <= MAX_CSV
    ensures Delivers(ResultFrames(text) + rest, |ResultFrames(text)|, text)
  {
    hide EncodeAll, ReadField, PieceFrames;
    PiecesAreFrames(text);
    var pieces := PieceFrames(S.Pieces(text));
    var fs := ResultFrames(text) + rest;
    var first, last := FrameOf(S.ResultBegin(|text|)), FrameOf(S.ResultEnd);
    assert fs == [first] + (pieces + ([last] + rest));
    assert fs[1..|pieces|+1] == pieces;
    SizeFirst(|text|);
  }

  lemma SizeFirst(size: nat)
    requires size < 0x1_0000_0000_0000_0000
    ensures ReadField(K64, EncodeAll([U64(size), Str("result.csv")])) == Got(U64(size), Encode(Str("result.csv")))
  {
    hide Encode, ReadField;
    EncodeTwo(U64(size), Str("result.csv"));
    FieldRoundTrip(U64(size), Encode(Str("result.csv")));
  }

  // ---------------------------------------------------------------- ANALYZE_DONE

  datatype AnalyzeResult = AnalyzeResult(
    totalBytes: nat, totalLines: nat, acceptedLines: nat, rejectedLines: nat, oversizeLines: nat, spdSamples: nat,
    spdAverage: Bytes, elapsedMs: nat, peakRssKb: nat, csvSize: nat)
  {
    /** The fields on the wire, in order. */
    function Fields(): seq<Field> {
      [U64(totalBytes), U64(totalLines), U64(acceptedLines), U64(rejectedLines), U64(oversizeLines), U64(spdSamples),
       Str(spdAverage), U64(elapsedMs), U64(peakRssKb), U64(csvSize)]
    }

    predicate Fits() {
      forall f | f in Fields() :: f.Fits()
    }
  }

  const DONE_KINDS: seq<FieldKind> := [K64, K64, K64, K64, K64, K64, KStr, K64, K64, K64]

  lemma NoMoreReads(rest: Bytes)
    ensures ReadFields([], rest) == ReadAll([], rest, true)
  {
  }

  lemma ReadNext(kinds: seq<FieldKind>, i: nat, rest: Bytes)
    requires i < |kinds|
    ensures ReadFields(kinds[i..], rest)
            == match ReadField(kinds[i], rest)
               case Short => ReadAll([], rest, false)
               case Got(f, later) =>
                 var r := ReadFields(kinds[i+1..], later);
                 ReadAll([f] + r.fields, r.rest, r.ok)
  {
    hide ReadField;
    assert kinds[i..][1..] == kinds[i+1..];
  }

  /** Reads one field after another until one is missing. */
  method ReadAllFields(payload: Bytes, kinds: seq<FieldKind>) returns (ok: bool, fs: seq<Field>)
    ensures var r := ReadFields(kinds, payload); ok == r.ok && fs == r.fields
  {
    hide ReadField, ReadFields, PayloadReader.Rest, PayloadReader.Valid;
    var reader := new PayloadReader(payload);
    ok, fs := true, [];
    var i := 0;
    ghost var rest, all := payload, ReadFields(kinds, payload);
    assert kinds[0..] == kinds;
    while i < |kinds|
      invariant 0 <= i <= |kinds| && reader.Valid() && reader.ok && rest == reader.Rest()
      invariant all.ok == ReadFields(kinds[i..], rest).ok
      invariant all.fields == fs + ReadFields(kinds[i..], rest).fields
    {
      ReadNext(kinds, i, rest);
      var r := reader.Get(kinds[i]);
      if r.Short? { return false, fs; }
      L.Regroup(fs, [r.f], ReadFields(kinds[i+1..], r.rest).fields);
      fs := fs + [r.f];
      rest := r.rest;
      i := i + 1;
    }
    NoMoreReads(rest);
    assert kinds[i..] == [];
  }

  lemma {:induction false} KindsAt(fs: seq<Field>)
    ensures |Kinds(fs)| == |fs| && forall i | 0 <= i < |fs| :: Kinds(fs)[i] == fs[i].Kind()
  {
    if fs != [] {
      KindsAt(fs[1..]);
      assert forall i | 0 < i < |fs| :: fs[i] == fs[1..][i-1];
    }
  }

  lemma KindsOf(r: AnalyzeResult)
    ensures Kinds(r.Fields()) == DONE_KINDS
  {
    KindsAt(r.Fields());
  }

  /** What is read has the kinds asked for. */
  lemma {:induction false} ReadKinds(kinds: seq<FieldKind>, payload: Bytes)
    ensures var r := ReadFields(kinds, payload);
            r.ok ==> |r.fields| == |kinds| && forall i | 0 <= i < |kinds| :: r.fields[i].Kind() == kinds[i]
  {
    hide Value;
    if kinds != [] && ReadField(kinds[0], payload).Got? {
      var got := ReadField(kinds[0], payload);
      ReadKinds(kinds[1..], got.rest);
      assert got.f.Kind() == kinds[0];
      assert forall i | 0 < i < |kinds| :: kinds[i] == kinds[1..][i-1];
    }
  }

  /** The fields of an ANALYZE_DONE payload, or nothing when it is malformed. */
  method ParseAnalyzeDone(payload: Bytes) returns (ok: bool, r: AnalyzeResult)
    ensures var all := ReadFields(DONE_KINDS, payload);
            ok == all.ok && (ok ==> r.Fields() == all.fields)
  {
    hide ReadFields;
    r := AnalyzeResult(0, 0, 0, 0, 0, 0, "", 0, 0, 0);
    var fs;
    ok, fs := ReadAllFields(payload, DONE_KINDS);
    if !ok { return; }
    ReadKinds(DONE_KINDS, payload);
    assert fs[6].Kind() == KStr;
    r := AnalyzeResult(fs[0].v, fs[1].v, fs[2].v, fs[3].v, fs[4].v, fs[5].v, fs[6].s, fs[7].v, fs[8].v, fs[9].v);
  }

  /** Every ANALYZE_DONE that was written is read back field for field; a shorter one is not. */
  lemma DoneRoundTrip(r: AnalyzeResult, rest: Bytes, n: nat)
    requires r.Fits() && n < |EncodeAll(r.Fields())|
    ensures ReadFields(DONE_KINDS, EncodeAll(r.Fields()) + rest) == ReadAll(r.Fields(), rest, true)
    ensures !ReadFields(DONE_KINDS, EncodeAll(r.Fields())[..n]).ok
  {
    hide ReadFields, EncodeAll;
    KindsOf(r);
    FieldsRoundTrip(r.Fields(), rest);
    FieldsTruncated(r.Fields(), n);
  }

  /** The payload of the server's ANALYZE_DONE: sizes and counts, the average, time and memory, the result's size. */
  function DonePayload(m: S.Msg, average: Bytes, elapsedMs: nat, rssKb: nat): Bytes
    requires m.Done? && m.figures.accepted <= m.figures.total
  {
    EncodeAll([U64(m.received), U64(m.figures.total), U64(m.figures.accepted),
               U64(m.figures.total - m.figures.accepted), U64(m.oversize),
               U64(m.figures.spdN), Str(average), U64(elapsedMs), U64(rssKb), U64(m.csvSize)])
  }

  /** The client understands it: each figure arrives in the field that is named for it. */
  lemma DoneUnderstood(m: S.Msg, average: Bytes, elapsedMs: nat, rssKb: nat)
    requires m.Done? && m.figures.accepted <= m.figures.total
    requires AnalyzeResult(m.received, m.figures.total, m.figures.accepted, m.figures.total - m.figures.accepted,
                           m.oversize, m.figures.spdN, average, elapsedMs, rssKb, m.csvSize).Fits()
    ensures var all := ReadFields(DONE_KINDS, DonePayload(m, average, elapsedMs, rssKb));
            && all.ok
            && forall r: AnalyzeResult | r.Fields() == all.fields ::
                 && r.totalBytes == m.received && r.totalLines == m.figures.total
                 && r.acceptedLines == m.figures.accepted
                 && r.rejectedLines == m.figures.total - m.figures.accepted
                 && r.oversizeLines == m.oversize && r.spdSamples == m.figures.spdN
                 && r.spdAverage == average && r.elapsedMs == elapsedMs && r.peakRssKb == rssKb
                 && r.csvSize == m.csvSize
  {
    hide ReadFields, EncodeAll, AnalyzeResult.Fits;
    var r0 := AnalyzeResult(m.received, m.figures.total, m.figures.accepted, m.figures.total - m.figures.accepted,
                            m.oversize, m.figures.spdN, average, elapsedMs, rssKb, m.csvSize);
    KindsOf(r0);
    FitsAll(r0);
    FieldsRoundTrip(r0.Fields(), []);
    assert EncodeAll(r0.Fields()) + [] == EncodeAll(r0.Fields());
    forall r: AnalyzeResult | r.Fields() == r0.Fields() ensures r == r0 {
      FieldsSame(r, r0);
    }
  }

  lemma FitsAll(r: AnalyzeResult)
    requires r.Fits()
    ensures forall i | 0 <= i < |r.Fields()| :: r.Fields()[i].Fits()
  {
    hide Field.Fits;
  }

  lemma FieldsSame(r: AnalyzeResult, q: AnalyzeResult)
    requires r.Fields() == q.Fields()
    ensures r == q
  {
    var a, b := r.Fields(), q.Fields();
    assert a[0] == b[0] && a[1] == b[1] && a[2] == b[2] && a[3] == b[3] && a[4] == b[4];
    assert a[5] == b[5] && a[6] == b[6] && a[7] == b[7] && a[8] == b[8] && a[9] == b[9];
  }
}
