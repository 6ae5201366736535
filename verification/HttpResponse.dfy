/** Responses that are framed by a content length, and where the reader stops in them. */
module HttpResponse {
  import opened Wrappers
  import opened Decimal
  import opened HttpSearch
  import opened HttpReader
  import opened HttpRequest

  /** Header lines of a response: no line breaks, and no Content-Length text before the header of that name. */
  ghost predicate Sound(first: seq<string>, last: seq<string>, body: string) {
    AllClean(first) && AllClean(last) && NoLengthIn(first) && |body| < 0x8000_0000
  }

  lemma FramedSplits(first: seq<string>, n: nat, last: seq<string>, rest: string)
    ensures Framed(first, n, last, rest) == Framed(first, n, last, []) + rest
    ensures |Lines(first)| + CONTENT_LENGTH_SIZE + |ToText(n)| + 4 <= |Framed(first, n, last, [])|
  {
    FramedParts(first, n, last, []);
    Sizes();
  }

  /** What the reader's searches make of such a response. */
  lemma FramedHeader(first: seq<string>, last: seq<string>, body: string, rest: string)
    requires Sound(first, last, body)
    ensures var header, stream := Framed(first, |body|, last, []), Framed(first, |body|, last, rest);
            HasHeader(stream) && HeaderLength(stream) == |header| && Promised(stream) == ToSize(|header| + |body|)
  {
    FramedSplits(first, |body|, last, rest);
    LengthIsFound(first, |body|, last, rest);
    HeaderIsDelimited(first, |body|, last, rest);
  }

  lemma Join3(a: string, b: string, c: string)
    ensures a + (b + c) == a + b + c
  {
  }

  lemma Whole(first: seq<string>, last: seq<string>, body: string, extra: string)
    ensures var header := Framed(first, |body|, last, []);
            && Framed(first, |body|, last, body + extra) == header + body + extra
            && Framed(first, |body|, last, body) == header + body
  {
    FramedSplits(first, |body|, last, body + extra);
    FramedSplits(first, |body|, last, body);
    Join3(Framed(first, |body|, last, []), body, extra);
  }

  lemma SizeIs(n: nat)
    requires n < 0x1_0000_0000_0000_0000
    ensures ToSize(n) == n
  {
  }

  /** However a response of this form is split into reads, the reader returns all of it. */
  lemma ResponseIsRead(first: seq<string>, last: seq<string>, body: string, pieces: seq<string>)
    requires Sound(first, last, body) && |Framed(first, |body|, last, body)| < 0x8000_0000
    requires Splits(pieces, Framed(first, |body|, last, body))
    ensures Received(pieces) == Framed(first, |body|, last, body) + ['\0']
  {
    FramedHeader(first, last, body, body);
    Whole(first, last, body, []);
    SizeIs(|Framed(first, |body|, last, body)|);
    PromiseKeptIff(Framed(first, |body|, last, body));
  }

  lemma Prefixes(a: string, b: string, c: string)
    ensures a <= a + b + c && (a + b + c)[..|a|] == a && (a + b + c)[..|a + b|] == a + b
  {
  }

  /** The round with exactly the header in the buffer settles on the size of the response. */
  lemma HeaderSettles(first: seq<string>, last: seq<string>, body: string, extra: string) returns (n: nat)
    requires Sound(first, last, body) && |Framed(first, |body|, last, body)| < 0x8000_0000
    ensures var stream := Framed(first, |body|, last, body + extra);
            && 0 < n <= |Framed(first, |body|, last, body)| <= |stream|
            && stream[..|Framed(first, |body|, last, body)|] == Framed(first, |body|, last, body)
            && TotalAt(stream[..n]) == Some(|Framed(first, |body|, last, body)|)
  {
    var header, stream := Framed(first, |body|, last, []), Framed(first, |body|, last, body + extra);
    n := |header|;
    FramedHeader(first, last, body, body + extra);
    Whole(first, last, body, extra);
    HeaderFits(stream);
    Prefixes(header, body, extra);
    assert stream[..n] == header;
    TotalIsPromised(header, stream);
    SizeIs(|header + body|);
  }

  /** If more follows on the connection, the reader can stop exactly behind the body. */
  lemma ResponseEnds(first: seq<string>, last: seq<string>, body: string, extra: string) returns (pieces: seq<string>)
    requires Sound(first, last, body) && |Framed(first, |body|, last, body)| < 0x8000_0000
    ensures Splits(pieces, Framed(first, |body|, last, body + extra))
    ensures Received(pieces) == Framed(first, |body|, last, body) + ['\0']
  {
    var stream := Framed(first, |body|, last, body + extra);
    var n := HeaderSettles(first, last, body, extra);
    var total := |Framed(first, |body|, last, body)|;
    pieces := [stream[..n]] + Singles(stream[n..]);
    SplitAt(stream, n);
    ReceivedAtOnce(stream[..n], Singles(stream[n..]));
    SinglesBody(stream, n, total);
  }
}
