/**
 Reading one HTTP response from a connection that delivers it in arbitrary pieces: the
 reader looks for the end of the header and for the content length each time the buffer
 has grown, then reads until it has as many bytes as the header announces.
 */
module HttpReader {
  import opened Decimal
  import opened Wrappers
  import opened HttpSearch
  import opened HttpBuffer
  const HEADER_TERMINATOR := "\r\n\r\n"
  const HEADER_TERMINATOR_SIZE := 4
  const CONTENT_LENGTH := "Content-Length: "
  const CONTENT_LENGTH_SIZE := 16

  lemma Sizes()
    ensures |HEADER_TERMINATOR| == HEADER_TERMINATOR_SIZE && |CONTENT_LENGTH| == CONTENT_LENGTH_SIZE
  {
  }

  /** The pieces that read will return; after the last one it returns 0 bytes. */
  class Connection {
    var pieces: seq<string>

    constructor (pieces: seq<string>)
      ensures this.pieces == pieces
    {
      this.pieces := pieces;
    }

    method Read() returns (bytes: string)
      requires forall i :: 0 <= i < |pieces| ==> pieces[i] != []
      modifies this
      ensures bytes == [] <==> old(pieces) == []
      ensures pieces == if old(pieces) == [] then [] else old(pieces)[1..]
      ensures bytes != [] ==> bytes == old(pieces)[0]
    {
      bytes := [];
      if pieces != [] {
        bytes := pieces[0];
        pieces := pieces[1..];
      }
    }
  }

  /** Conversion to the 64-bit size_t in which the total is compared with the buffer size. */
  function ToSize(n: int): nat
    decreases n < 0, if n < 0 then -n else n
  {
    if n >= 0x1_0000_0000_0000_0000 then ToSize(n - 0x1_0000_0000_0000_0000)
    else if n < 0 then ToSize(n + 0x1_0000_0000_0000_0000)
    else n
  }

  lemma {:induction false} ToSizeWraps(n: int) returns (k: int)
    ensures n == ToSize(n) + 0x1_0000_0000_0000_0000 * k && ToSize(n) < 0x1_0000_0000_0000_0000
    decreases n < 0, if n < 0 then -n else n
  {
    if n >= 0x1_0000_0000_0000_0000 {
      k := ToSizeWraps(n - 0x1_0000_0000_0000_0000);
      k := k + 1;
    } else if n < 0 {
      k := ToSizeWraps(n + 0x1_0000_0000_0000_0000);
      k := k - 1;
    } else {
      k := 0;
    }
  }

  /** The announced length: what strtol makes of the text behind the first Content-Length. */
  function Announced(s: string, at: int): (v: int)
    requires 0 <= at && at + CONTENT_LENGTH_SIZE <= |s|
    ensures -0x8000_0000 <= v < 0x8000_0000
  {
    ToInt32(Strtol(s, at + CONTENT_LENGTH_SIZE))
  }

  /** How one round of the first loop ends. */
  datatype Round =
    | EndOfStream
    | Again(headerEnd: int)
    | Found(headerEnd: int, contentLength: int)

  /** The round that starts with this buffer and reads these bytes. */
  function RoundOf(grown: string): (r: Round)
    ensures !r.EndOfStream?
  {
    var h := Find(grown, HEADER_TERMINATOR, false);
    if h < 0 then Again(h)
    else
      var at := Find(grown, CONTENT_LENGTH, true);
      if at < 0 then Again(h + HEADER_TERMINATOR_SIZE)
      else Found(h + HEADER_TERMINATOR_SIZE, Announced(grown, at))
  }

  /** What the first loop leaves: the buffer, the pieces not read, and the total to wait for. */
  datatype Header = Header(buffer: string, rest: seq<string>, total: nat)

  /** The first loop, for any way of judging the buffer; headerEnd is left by the previous round. */
  function ReadWith(judge: string -> Round, buffer: string, pieces: seq<string>, headerEnd: int): (r: Header)
    decreases |pieces|
  {
    if pieces == [] then Header(buffer, [], ToSize(headerEnd))
    else
      match judge(buffer + pieces[0])
      case Found(end, length) => Header(buffer + pieces[0], pieces[1..], ToSize(length + end))
      case Again(end) => ReadWith(judge, buffer + pieces[0], pieces[1..], end)
      case EndOfStream => Header(buffer + pieces[0], pieces[1..], 0)  // judge never says so
  }

  function ReadHeader(pieces: seq<string>): Header {
    ReadWith(RoundOf, [], pieces, 0)
  }

  /** The second loop. */
  function ReadBody(buffer: string, pieces: seq<string>, total: nat): string
    decreases |pieces|
  {
    if |buffer| >= total || pieces == [] then buffer
    else ReadBody(buffer + pieces[0], pieces[1..], total)
  }

  function Received(pieces: seq<string>): string {
    var header := ReadHeader(pieces);
    ReadBody(header.buffer, header.rest, header.total) + ['\0']
  }

  /** Only the end of the stream reads as no bytes. */
  ghost predicate Readable(pieces: seq<string>) {
    forall i :: 0 <= i < |pieces| ==> pieces[i] != []
  }

  /** What the first loop will leave. */
  ghost function Outcome(connection: Connection, buffer: Buffer, headerEnd: int): Header
    requires buffer.Valid()
    reads connection, buffer, buffer.data
  {
    ReadWith(RoundOf, buffer.Contents(), connection.pieces, headerEnd)
  }

  /** The searches that follow each read. */
  method Inspect(buffer: Buffer) returns (round: Round)
    requires buffer.Valid() && buffer.data != null
    ensures round == RoundOf(buffer.Contents())
  {
    var headerEnd := buffer.FindFirst(HEADER_TERMINATOR, false);
    if headerEnd < 0 {
      return Again(headerEnd);
    }
    headerEnd := headerEnd + HEADER_TERMINATOR_SIZE;
    var start := buffer.FindFirst(CONTENT_LENGTH, true);
    if start < 0 {
      return Again(headerEnd);
    }
    start := start + CONTENT_LENGTH_SIZE;
    round := Found(headerEnd, ToInt32(Strtol(buffer.data[..], start)));
  }

  lemma OneRound(judge: string -> Round, buffer: string, pieces: seq<string>, headerEnd: int)
    requires pieces != [] && !judge(buffer + pieces[0]).EndOfStream?
    ensures ReadWith(judge, buffer, pieces, headerEnd)
            == match judge(buffer + pieces[0])
               case Again(end) => ReadWith(judge, buffer + pieces[0], pieces[1..], end)
               case Found(end, length) => Header(buffer + pieces[0], pieces[1..], ToSize(length + end))
  {
  }

  /** The body of the first loop; headerEnd is left by the previous round. */
  method ReadOnce(connection: Connection, buffer: Buffer, ghost headerEnd: int) returns (round: Round)
    requires Readable(connection.pieces) && buffer.Valid()
    modifies connection, buffer
    ensures Readable(connection.pieces)
    ensures buffer.Valid() && (buffer.data == old(buffer.data) || fresh(buffer.data))
    ensures !round.EndOfStream? ==> |connection.pieces| < |old(connection.pieces)|
    ensures old(Outcome(connection, buffer, headerEnd))
            == match round
               case EndOfStream => Header(buffer.Contents(), connection.pieces, ToSize(headerEnd))
               case Again(end) => Outcome(connection, buffer, end)
               case Found(end, length) => Header(buffer.Contents(), connection.pieces, ToSize(length + end))
  {
    ghost var before, pieces := buffer.Contents(), connection.pieces;
    var bytes := connection.Read();
    if bytes == [] {
      return EndOfStream;
    }
    buffer.Add(bytes);
    round := Inspect(buffer);
    OneRound(RoundOf, before, pieces, headerEnd);
  }

  /** The loop that looks for the header and the content length. */
  method ReceiveHeader(connection: Connection, buffer: Buffer) returns (total: nat)
    requires Readable(connection.pieces) && buffer.Valid() && buffer.Contents() == []
    modifies connection, buffer
    ensures Readable(connection.pieces) && buffer.Valid()
    ensures Header(buffer.Contents(), connection.pieces, total) == ReadHeader(old(connection.pieces))
    ensures buffer.data == old(buffer.data) || fresh(buffer.data)
  {
    var headerEnd, contentLength := 0, 0;
    ghost var goal := Outcome(connection, buffer, headerEnd);
    while true
      invariant Readable(connection.pieces) && buffer.Valid()
      invariant buffer.data == old(buffer.data) || fresh(buffer.data)
      invariant goal == Outcome(connection, buffer, headerEnd)
      decreases |connection.pieces|
    {
      var round := ReadOnce(connection, buffer, headerEnd);
      if round.EndOfStream? {
        break;
      }
      headerEnd := round.headerEnd;
      if round.Found? {
        contentLength := round.contentLength;
        break;
      }
    }
    total := ToSize(contentLength + headerEnd);
  }

  /** The loop that waits for the announced number of bytes. */
  method ReceiveBody(connection: Connection, buffer: Buffer, total: nat)
    requires Readable(connection.pieces) && buffer.Valid()
    modifies connection, buffer
    ensures buffer.Valid() && buffer.Contents() == ReadBody(old(buffer.Contents()), old(connection.pieces), total)
  {
    ghost var goal := ReadBody(buffer.Contents(), connection.pieces, total);
    while buffer.size < total
      invariant Readable(connection.pieces) && buffer.Valid()
      invariant goal == ReadBody(buffer.Contents(), connection.pieces, total)
      decreases |connection.pieces|
    {
      var bytes := connection.Read();
      if bytes == [] {
        break;
      }
      buffer.Add(bytes);
    }
  }

  /** receive_from_server. */
  method ReceiveFromServer(connection: Connection) returns (response: string)
    requires Readable(connection.pieces)
    modifies connection
    ensures response == Received(old(connection.pieces))
  {
    var buffer := new Buffer();
    var total := ReceiveHeader(connection, buffer);
    ReceiveBody(connection, buffer, total);
    buffer.Add(['\0']);
    response := buffer.data[..];
  }

  // ---------- Any way of splitting the stream ----------

  function Joined(pieces: seq<string>): string {
    if pieces == [] then [] else pieces[0] + Joined(pieces[1..])
  }

  ghost predicate Splits(pieces: seq<string>, stream: string) {
    Joined(pieces) == stream && forall i :: 0 <= i < |pieces| ==> pieces[i] != []
  }

  /** The stream starts with a header that announces a length, the number ending inside the header. */
  predicate HasHeader(stream: string) {
    var h := Find(stream, HEADER_TERMINATOR, false);
    var at := Find(stream, CONTENT_LENGTH, true);
    0 <= h && 0 <= at && at + CONTENT_LENGTH_SIZE <= h + HEADER_TERMINATOR_SIZE
    && NumberEnd(stream, at + CONTENT_LENGTH_SIZE) < h + HEADER_TERMINATOR_SIZE
  }

  function HeaderLength(stream: string): nat
    requires HasHeader(stream)
  {
    Find(stream, HEADER_TERMINATOR, false) + HEADER_TERMINATOR_SIZE
  }

  /** The size that the header promises for the whole response. */
  function Promised(stream: string): nat
    requires HasHeader(stream)
  {
    ToSize(Announced(stream, Find(stream, CONTENT_LENGTH, true)) + HeaderLength(stream))
  }

  lemma {:induction false} SkipSpacesPrefix(p: string, s: string, i: nat)
    requires p <= s && i <= |p| && SkipSpaces(s, i) < |p|
    ensures SkipSpaces(p, i) == SkipSpaces(s, i)
    decreases |p| - i
  {
    if i < |p| && IsSpace(s[i]) {
      SkipSpacesPrefix(p, s, i + 1);
    }
  }

  lemma {:induction false} SkipDigitsPrefix(p: string, s: string, i: nat)
    requires p <= s && i <= |p| && SkipDigits(s, i) < |p|
    ensures SkipDigits(p, i) == SkipDigits(s, i)
    decreases |p| - i
  {
    if i < |p| && IsDigit(s[i]) {
      SkipDigitsPrefix(p, s, i + 1);
    }
  }

  /** A number that ends inside the text is read the same when the text is continued. */
  lemma StrtolPrefix(p: string, s: string, i: nat)
    requires p <= s && i <= |p| && NumberEnd(s, i) < |p|
    ensures NumberEnd(p, i) == NumberEnd(s, i) && Strtol(p, i) == Strtol(s, i)
  {
    SkipSpacesPrefix(p, s, i);
    var start := NumberStart(s, i);
    SkipDigitsPrefix(p, s, start);
    assert p[start..NumberEnd(s, i)] == s[start..NumberEnd(s, i)];
  }

  /** A round fails before the buffer holds hl bytes, and then yields this total. */
  predicate Judged(round: Round, size: nat, hl: nat, total: nat) {
    if size < hl then round.Again? else round.Found? && ToSize(round.contentLength + round.headerEnd) == total
  }

  ghost predicate Judges(judge: string -> Round, stream: string, hl: nat, total: nat) {
    forall grown :: grown <= stream ==> Judged(judge(grown), |grown|, hl, total)
  }

  /** What a round of the first loop finds in a beginning of the stream. */
  lemma RoundFinds(grown: string, stream: string)
    requires HasHeader(stream) && grown <= stream
    ensures Judged(RoundOf(grown), |grown|, HeaderLength(stream), Promised(stream))
  {
    Sizes();
    FindStable(grown, stream, HEADER_TERMINATOR, false);
    if HeaderLength(stream) <= |grown| {
      var at := Find(stream, CONTENT_LENGTH, true);
      FindStable(grown, stream, CONTENT_LENGTH, true);
      StrtolPrefix(grown, stream, at + CONTENT_LENGTH_SIZE);
    }
  }

  lemma RoundsJudge(stream: string)
    requires HasHeader(stream)
    ensures Judges(RoundOf, stream, HeaderLength(stream), Promised(stream))
  {
    forall grown | grown <= stream
      ensures Judged(RoundOf(grown), |grown|, HeaderLength(stream), Promised(stream))
    {
      RoundFinds(grown, stream);
    }
  }

  lemma HeaderFits(stream: string)
    requires HasHeader(stream)
    ensures 0 < HeaderLength(stream) <= |stream|
  {
    Sizes();
  }

  /** Whatever the pieces, the first loop ends with the header in the buffer and the right total. */
  lemma {:induction false} HeaderIsFound(judge: string -> Round, buffer: string, pieces: seq<string>, headerEnd: int,
                                         stream: string, hl: nat, total: nat)
    requires Judges(judge, stream, hl, total) && |buffer| < hl <= |stream| && buffer + Joined(pieces) == stream
    ensures var r := ReadWith(judge, buffer, pieces, headerEnd);
            r.buffer + Joined(r.rest) == stream && hl <= |r.buffer| && r.total == total
    decreases |pieces|
  {
    assert pieces != [];
    var grown := buffer + pieces[0];
    assert grown + Joined(pieces[1..]) == stream;
    if |grown| < hl {
      HeaderIsFound(judge, grown, pieces[1..], judge(grown).headerEnd, stream, hl, total);
    }
  }

  /** The second loop reads until the total is reached, or everything. */
  lemma {:induction false} BodyIsRead(buffer: string, pieces: seq<string>, total: nat, stream: string)
    requires buffer + Joined(pieces) == stream
    ensures ReadBody(buffer, pieces, total) <= stream && buffer <= ReadBody(buffer, pieces, total)
    ensures |ReadBody(buffer, pieces, total)| >= total || ReadBody(buffer, pieces, total) == stream
    decreases |pieces|
  {
    if |buffer| < total && pieces != [] {
      assert buffer + pieces[0] + Joined(pieces[1..]) == stream;
      BodyIsRead(buffer + pieces[0], pieces[1..], total, stream);
    } else if pieces == [] {
      assert buffer == stream;
    }
  }

  lemma BodyEnds(buffer: string, rest: seq<string>, total: nat, stream: string) returns (n: nat)
    requires buffer + Joined(rest) == stream
    ensures |buffer| <= n <= |stream| && ReadBody(buffer, rest, total) == stream[..n]
    ensures total <= n || n == |stream|
  {
    BodyIsRead(buffer, rest, total, stream);
    n := |ReadBody(buffer, rest, total)|;
  }

  /** However the stream is split, a beginning of it is returned that holds all that was promised. */
  lemma AtLeastPromised(pieces: seq<string>, stream: string) returns (n: nat)
    requires HasHeader(stream) && Splits(pieces, stream)
    ensures n <= |stream| && Received(pieces) == stream[..n] + ['\0']
    ensures HeaderLength(stream) <= n && (Promised(stream) <= n || n == |stream|)
  {
    var r := ReadHeader(pieces);
    assert [] + Joined(pieces) == stream;
    RoundsJudge(stream);
    HeaderFits(stream);
    HeaderIsFound(RoundOf, [], pieces, 0, stream, HeaderLength(stream), Promised(stream));
    n := BodyEnds(r.buffer, r.rest, r.total, stream);
  }

  // ---------- One byte at a time ----------

  function Singles(s: string): (pieces: seq<string>)
    ensures |pieces| == |s|
  {
    if s == [] then [] else [[s[0]]] + Singles(s[1..])
  }

  lemma {:induction false} SinglesSplit(s: string)
    ensures Splits(Singles(s), s)
  {
    if s != [] {
      SinglesSplit(s[1..]);
      assert Singles(s)[1..] == Singles(s[1..]);
    }
  }

  lemma SinglesNext(stream: string, n: nat)
    requires n < |stream|
    ensures var pieces := Singles(stream[n..]);
            pieces != [] && pieces[0] == [stream[n]] && pieces[1..] == Singles(stream[n + 1..])
  {
    assert stream[n..][1..] == stream[n + 1..];
  }

  lemma {:induction false} SinglesBody(stream: string, n: nat, total: nat)
    requires n <= |stream| && total <= |stream|
    ensures ReadBody(stream[..n], Singles(stream[n..]), total) == stream[..if total <= n then n else total]
    decreases |stream| - n
  {
    if n < total {
      assert stream[..n] + [stream[n]] == stream[..n + 1];
      SinglesNext(stream, n);
      SinglesBody(stream, n + 1, total);
    }
  }

  // ---------- Exactly which streams are returned whole ----------

  /** The total that the round with this buffer would settle on, if it does. */
  function TotalAt(grown: string): Option<nat> {
    match RoundOf(grown)
    case Found(end, length) => Some(ToSize(length + end))
    case _ => None
  }

  lemma TotalIsPromised(grown: string, stream: string)
    requires HasHeader(stream) && grown <= stream && HeaderLength(stream) <= |grown|
    ensures TotalAt(grown) == Some(Promised(stream))
  {
    RoundFinds(grown, stream);
  }

  /** The first loop ends at some beginning of the stream, or has read all of it. */
  lemma {:induction false} HeaderEnds(buffer: string, pieces: seq<string>, headerEnd: int, stream: string)
    requires buffer + Joined(pieces) == stream
    ensures var r := ReadWith(RoundOf, buffer, pieces, headerEnd);
            r.buffer + Joined(r.rest) == stream && (r.rest == [] || TotalAt(r.buffer) == Some(r.total))
    decreases |pieces|
  {
    if pieces != [] {
      var grown := buffer + pieces[0];
      assert grown + Joined(pieces[1..]) == stream;
      if TotalAt(grown) == None {
        HeaderEnds(grown, pieces[1..], RoundOf(grown).headerEnd, stream);
      }
    }
  }

  /** A total that is too small, found by a round that has not read everything. */
  ghost predicate Stops(stream: string, n: nat) {
    n < |stream| && TotalAt(stream[..n]).Some? && TotalAt(stream[..n]).value < |stream|
  }

  lemma WholeUnlessStops(pieces: seq<string>, stream: string)
    requires Splits(pieces, stream) && forall n :: !Stops(stream, n)
    ensures Received(pieces) == stream + ['\0']
  {
    var r := ReadHeader(pieces);
    assert [] + Joined(pieces) == stream;
    HeaderEnds([], pieces, 0, stream);
    BodyIsRead(r.buffer, r.rest, r.total, stream);
    var n := |r.buffer|;
    assert r.buffer == stream[..n];
    assert !Stops(stream, n);
  }

  /** The first round ends the first loop. */
  lemma FirstRound(judge: string -> Round, first: string, rest: seq<string>)
    requires judge(first).Found?
    ensures ReadWith(judge, [], [first] + rest, 0)
            == Header(first, rest, ToSize(judge(first).contentLength + judge(first).headerEnd))
  {
    assert [] + first == first && ([first] + rest)[1..] == rest;
  }

  lemma FoundSome(grown: string)
    requires TotalAt(grown).Some?
    ensures grown != []
  {
    Sizes();
  }

  lemma ReceivedAtOnce(first: string, rest: seq<string>)
    requires TotalAt(first).Some?
    ensures Received([first] + rest) == ReadBody(first, rest, TotalAt(first).value) + ['\0']
  {
    FirstRound(RoundOf, first, rest);
  }

  lemma SplitAt(stream: string, n: nat)
    requires 0 < n <= |stream|
    ensures Splits([stream[..n]] + Singles(stream[n..]), stream)
  {
    var rest := Singles(stream[n..]);
    SinglesSplit(stream[n..]);
    assert ([stream[..n]] + rest)[1..] == rest && stream[..n] + stream[n..] == stream;
  }

  /** A first read of n bytes, and single bytes after that. */
  lemma StoppedSplit(stream: string, n: nat) returns (pieces: seq<string>)
    requires Stops(stream, n)
    ensures Splits(pieces, stream) && Received(pieces) != stream + ['\0']
  {
    pieces := [stream[..n]] + Singles(stream[n..]);
    FoundSome(stream[..n]);
    SplitAt(stream, n);
    ReceivedAtOnce(stream[..n], Singles(stream[n..]));
    SinglesBody(stream, n, TotalAt(stream[..n]).value);
  }

  /**
   For any stream: the reader returns all of it and a NUL, however it is split into reads,
   exactly when no round that starts short of its end settles on a total short of its end.
   */
  lemma WholeStreamIff(stream: string)
    ensures (forall pieces :: Splits(pieces, stream) ==> Received(pieces) == stream + ['\0'])
            <==> forall n :: !Stops(stream, n)
  {
    if n :| Stops(stream, n) {
      var pieces := StoppedSplit(stream, n);
    } else {
      forall pieces | Splits(pieces, stream)
        ensures Received(pieces) == stream + ['\0']
      {
        WholeUnlessStops(pieces, stream);
      }
    }
  }

  lemma StopsBehindHeader(stream: string, n: nat)
    requires HasHeader(stream)
    ensures Stops(stream, n) <==> HeaderLength(stream) <= n < |stream| && Promised(stream) < |stream|
  {
    if n < |stream| {
      RoundFinds(stream[..n], stream);
    }
  }

  /** When the header announces a length: iff it promises at least the whole stream or there is no body. */
  lemma PromiseKeptIff(stream: string)
    requires HasHeader(stream)
    ensures (forall pieces :: Splits(pieces, stream) ==> Received(pieces) == stream + ['\0'])
            <==> Promised(stream) >= |stream| || HeaderLength(stream) == |stream|
  {
    WholeStreamIff(stream);
    HeaderFits(stream);
    forall n: nat
      ensures Stops(stream, n) <==> HeaderLength(stream) <= n < |stream| && Promised(stream) < |stream|
    {
      StopsBehindHeader(stream, n);
    }
    StopsBehindHeader(stream, HeaderLength(stream));
  }

  /** A stream without an empty line or without a content length is always returned whole. */
  lemma NoLengthIsWhole(pieces: seq<string>, stream: string)
    requires Find(stream, HEADER_TERMINATOR, false) < 0 || Find(stream, CONTENT_LENGTH, true) < 0
    requires Splits(pieces, stream)
    ensures Received(pieces) == stream + ['\0']
  {
    forall n: nat | n <= |stream|
      ensures !Stops(stream, n)
    {
      if TotalAt(stream[..n]).Some? {
        FindGrows(stream[..n], stream, HEADER_TERMINATOR, false);
        FindGrows(stream[..n], stream, CONTENT_LENGTH, true);
        assert false;
      }
    }
    WholeUnlessStops(pieces, stream);
  }

  // ---------- The case of letters ----------

  lemma {:induction false} SkipSpacesRelated(s: string, s': string, i: nat)
    requires RelatedTexts(s, s') && i <= |s|
    ensures SkipSpaces(s', i) == SkipSpaces(s, i)
    decreases |s| - i
  {
    if i < |s| {
      assert Related(s[i], s'[i]);
      SkipSpacesRelated(s, s', i + 1);
    }
  }

  lemma {:induction false} SkipDigitsRelated(s: string, s': string, i: nat)
    requires RelatedTexts(s, s') && i <= |s|
    ensures SkipDigits(s', i) == SkipDigits(s, i)
    decreases |s| - i
  {
    if i < |s| {
      assert Related(s[i], s'[i]);
      SkipDigitsRelated(s, s', i + 1);
    }
  }

  /** Numbers have no letters. */
  lemma StrtolRelated(s: string, s': string, i: nat)
    requires RelatedTexts(s, s') && i <= |s|
    ensures Strtol(s', i) == Strtol(s, i)
  {
    SkipSpacesRelated(s, s', i);
    var k := SkipSpaces(s, i);
    assert k < |s| ==> Related(s[k], s'[k]);
    SkipDigitsRelated(s, s', NumberStart(s, i));
    var digits, digits' := s[NumberStart(s, i)..NumberEnd(s, i)], s'[NumberStart(s, i)..NumberEnd(s, i)];
    forall k | 0 <= k < |digits|
      ensures digits'[k] == digits[k]
    {
      assert Related(s[NumberStart(s, i) + k], s'[NumberStart(s, i) + k]);
    }
    assert digits' == digits;
  }

  lemma TerminatorHasNoLetters()
    ensures forall j :: 0 <= j < |HEADER_TERMINATOR| ==> !IsLetter(HEADER_TERMINATOR[j])
  {
  }

  lemma RoundRelated(s: string, s': string)
    requires RelatedTexts(s, s')
    ensures RoundOf(s') == RoundOf(s)
  {
    Sizes();
    TerminatorHasNoLetters();
    FindRelated(s, s', HEADER_TERMINATOR, false);
    FindRelated(s, s', CONTENT_LENGTH, true);
    var at := Find(s, CONTENT_LENGTH, true);
    if 0 <= at {
      StrtolRelated(s, s', at + CONTENT_LENGTH_SIZE);
    }
  }

  ghost predicate RelatedPieces(pieces: seq<string>, pieces': seq<string>) {
    |pieces'| == |pieces| && forall i :: 0 <= i < |pieces| ==> RelatedTexts(pieces[i], pieces'[i])
  }

  lemma {:induction false} ReadRelated(judge: string -> Round, buffer: string, buffer': string,
                                       pieces: seq<string>, pieces': seq<string>, headerEnd: int)
    requires forall s, s' :: RelatedTexts(s, s') ==> judge(s') == judge(s)
    requires RelatedTexts(buffer, buffer') && RelatedPieces(pieces, pieces')
    ensures var r, r' := ReadWith(judge, buffer, pieces, headerEnd), ReadWith(judge, buffer', pieces', headerEnd);
            RelatedTexts(r.buffer, r'.buffer) && RelatedPieces(r.rest, r'.rest) && r'.total == r.total
    decreases |pieces|
  {
    if pieces != [] {
      RelatedAppend(buffer, buffer', pieces[0], pieces'[0]);
      var grown, grown' := buffer + pieces[0], buffer' + pieces'[0];
      if judge(grown).Again? {
        ReadRelated(judge, grown, grown', pieces[1..], pieces'[1..], judge(grown).headerEnd);
      }
    }
  }

  lemma {:induction false} BodyRelated(buffer: string, buffer': string, pieces: seq<string>, pieces': seq<string>, total: nat)
    requires RelatedTexts(buffer, buffer') && RelatedPieces(pieces, pieces')
    ensures RelatedTexts(ReadBody(buffer, pieces, total), ReadBody(buffer', pieces', total))
    decreases |pieces|
  {
    if |buffer| < total && pieces != [] {
      RelatedAppend(buffer, buffer', pieces[0], pieces'[0]);
      BodyRelated(buffer + pieces[0], buffer' + pieces'[0], pieces[1..], pieces'[1..], total);
    }
  }

  /**
   Header names may be written in any case: if two servers send the same but for the case of
   letters, in the same pieces, the reader returns the same but for the case of letters.
   */
  lemma CaseMakesNoDifference(pieces: seq<string>, pieces': seq<string>)
    requires RelatedPieces(pieces, pieces')
    ensures RelatedTexts(Received(pieces), Received(pieces'))
  {
    forall s, s' | RelatedTexts(s, s')
      ensures RoundOf(s') == RoundOf(s)
    {
      RoundRelated(s, s');
    }
    ReadRelated(RoundOf, [], [], pieces, pieces', 0);
    var header, header' := ReadHeader(pieces), ReadHeader(pieces');
    BodyRelated(header.buffer, header'.buffer, header.rest, header'.rest, header.total);
    RelatedAppend(ReadBody(header.buffer, header.rest, header.total),
                  ReadBody(header'.buffer, header'.rest, header.total), ['\0'], ['\0']);
  }
}
