/**
 Writing a POST request, and taking it apart again with the searches of the response
 reader: end of header, content length, body.
 */
module HttpRequest {
  import opened Wrappers
  import opened Decimal
  import opened HttpSearch
  import opened HttpReader
  const CRLF := "\r\n"

  /** compute_message: one more line of the message. */
  function ComputeMessage(message: string, line: string): string {
    message + line + CRLF
  }

  function Lines(lines: seq<string>): string {
    if lines == [] then [] else lines[0] + CRLF + Lines(lines[1..])
  }

  /** The fields of the body, separated by '&'. */
  function Join(fields: seq<string>): string {
    if fields == [] then [] else if |fields| == 1 then fields[0] else fields[0] + "&" + Join(fields[1..])
  }

  /** The arguments of compute_post_request; a missing body or cookie list is a null pointer. */
  datatype Post = Post(host: string, url: string, contentType: string,
                       body: Option<seq<string>>, cookies: Option<seq<string>>)

  function BodyText(post: Post): string {
    match post.body case None => [] case Some(fields) => Join(fields)
  }

  /** The lines before Content-Length. */
  function FirstLines(post: Post): seq<string> {
    ["POST " + post.url + " HTTP/1.1", "Host: " + post.host, "Content-Type: " + post.contentType]
  }

  function CookieLines(cookies: seq<string>): (lines: seq<string>)
    ensures |lines| == |cookies| && forall i :: 0 <= i < |lines| ==> lines[i] == "Cookie: " + cookies[i]
  {
    seq(|cookies|, i requires 0 <= i < |cookies| => "Cookie: " + cookies[i])
  }

  /** Everything after the Content-Length line and before the empty line. */
  function LastLines(post: Post): seq<string> {
    match post.cookies case None => [] case Some(cookies) => CookieLines(cookies)
  }

  function HeaderLines(post: Post): seq<string> {
    FirstLines(post) + [CONTENT_LENGTH + ToText(|BodyText(post)|)] + LastLines(post)
  }

  /** The request: the header lines, an empty line, the body and another line end. */
  function Message(post: Post): string {
    Lines(HeaderLines(post)) + CRLF + BodyText(post) + CRLF
  }

  // ---------- compute_post_request ----------

  lemma {:induction false} LinesAppend(a: seq<string>, b: seq<string>)
    ensures Lines(a + b) == Lines(a) + Lines(b)
  {
    if a == [] {
      assert a + b == b;
    } else {
      LinesAppend(a[1..], b);
      assert (a + b)[1..] == a[1..] + b;
    }
  }

  lemma LinesPush(lines: seq<string>, line: string)
    ensures Lines(lines + [line]) == ComputeMessage(Lines(lines), line)
  {
    LinesAppend(lines, [line]);
    assert Lines([line]) == line + CRLF + [];
  }

  lemma JoinStep(text: string, fields: seq<string>)
    requires |fields| > 1
    ensures text + Join(fields) == text + fields[0] + "&" + Join(fields[1..])
  {
  }

  /** The loop that joins the body fields and adds up their lengths. */
  method JoinFields(fields: seq<string>) returns (text: string, size: int)
    requires fields != []
    ensures text == Join(fields) && size == |text|
  {
    text, size := [], 0;
    var i := 0;
    while i < |fields| - 1
      invariant 0 <= i < |fields| && size == |text|
      invariant Join(fields) == text + Join(fields[i..])
    {
      assert fields[i..][1..] == fields[i + 1..];
      JoinStep(text, fields[i..]);
      size := size + |fields[i]| + 1;
      text := text + fields[i];
      text := text + "&";
      i := i + 1;
    }
    assert fields[i..] == [fields[i]];
    size := size + |fields[|fields| - 1]|;
    text := text + fields[|fields| - 1];
  }

  method AddCookies(post: Post, before: string) returns (message: string)
    requires before == Lines(FirstLines(post) + [CONTENT_LENGTH + ToText(|BodyText(post)|)])
    ensures message == Lines(HeaderLines(post))
  {
    message := before;
    ghost var lines := FirstLines(post) + [CONTENT_LENGTH + ToText(|BodyText(post)|)];
    assert lines + [] == lines;
    if post.cookies.Some? {
      var cookies := post.cookies.value;
      var i := 0;
      while i < |cookies|
        invariant 0 <= i <= |cookies|
        invariant message == Lines(lines + CookieLines(cookies)[..i])
      {
        LinesPush(lines + CookieLines(cookies)[..i], "Cookie: " + cookies[i]);
        assert lines + CookieLines(cookies)[..i] + ["Cookie: " + cookies[i]] == lines + CookieLines(cookies)[..i + 1];
        message := ComputeMessage(message, "Cookie: " + cookies[i]);
        i := i + 1;
      }
      assert CookieLines(cookies)[..i] == CookieLines(cookies);
    }
  }

  // ---------- Taking a message apart ----------

  /** The body as the reader finds it: behind the header, as long as the header announces. */
  function BodyOf(s: string): Option<string> {
    var h := Find(s, HEADER_TERMINATOR, false);
    var at := Find(s, CONTENT_LENGTH, true);
    if h < 0 || at < 0 then None
    else
      Sizes();
      var start, length := h + HEADER_TERMINATOR_SIZE, Announced(s, at);
      if 0 <= length && start + length <= |s| then Some(s[start..start + length]) else None
  }

  predicate Clean(line: string) {
    forall i :: 0 <= i < |line| ==> line[i] != '\r' && line[i] != '\n'
  }

  ghost predicate AllClean(lines: seq<string>) {
    forall i :: 0 <= i < |lines| ==> Clean(lines[i]) && lines[i] != []
  }

  ghost predicate NoLengthIn(lines: seq<string>) {
    forall i :: 0 <= i < |lines| ==> Find(lines[i], CONTENT_LENGTH, true) < 0
  }

  /** The arguments contain no line breaks, and nothing before the header of that name looks like it. */
  ghost predicate Sendable(post: Post) {
    && AllClean(FirstLines(post)) && AllClean(LastLines(post)) && NoLengthIn(FirstLines(post))
    && |BodyText(post)| < 0x8000_0000
  }

  lemma LineEnd(line: string, rest: string)
    ensures var s := line + CRLF + rest;
            && s[|line|] == '\r' && s[|line| + 1] == '\n' && (rest != [] ==> s[|line| + 2] == rest[0])
            && (forall i :: 0 <= i < |line| ==> s[i] == line[i]) && line <= s
  {
  }

  /** The characters of a header terminator. */
  lemma TerminatorChars(s: string, i: nat)
    ensures MatchAt(s, HEADER_TERMINATOR, i, false) ==>
              i + 4 <= |s| && s[i] == '\r' && s[i + 1] == '\n' && s[i + 2] == '\r' && s[i + 3] == '\n'
    ensures i + 4 <= |s| && s[i] == '\r' && s[i + 1] == '\n' && s[i + 2] == '\r' && s[i + 3] == '\n' ==>
              MatchAt(s, HEADER_TERMINATOR, i, false)
  {
    Sizes();
    var t := HEADER_TERMINATOR;
    assert t[0] == '\r' && t[1] == '\n' && t[2] == '\r' && t[3] == '\n';
    if MatchAt(s, t, i, false) {
      assert Same(s[i + 0], t[0], false) && Same(s[i + 1], t[1], false);
      assert Same(s[i + 2], t[2], false) && Same(s[i + 3], t[3], false);
    }
  }

  /** An empty line does not occur before the end of the header lines. */
  lemma {:induction false} NoTerminator(lines: seq<string>, rest: string, i: nat)
    requires AllClean(lines) && i + 2 < |Lines(lines)|
    ensures !MatchAt(Lines(lines) + CRLF + rest, HEADER_TERMINATOR, i, false)
  {
    var line, more := lines[0], Lines(lines[1..]) + CRLF + rest;
    var s := Lines(lines) + CRLF + rest;
    assert s == line + CRLF + more;
    LineEnd(line, more);
    assert Clean(line);
    if i < |line| {
      TerminatorChars(s, i);
      assert s[i] == line[i];
    } else if i == |line| {
      assert lines[1..] != [];
      assert more[0] == lines[1][0] && Clean(lines[1]);
      TerminatorChars(s, i);
    } else if i == |line| + 1 {
      TerminatorChars(s, i);
    } else {
      MatchShift(line + CRLF, more, HEADER_TERMINATOR, i, false);
      NoTerminator(lines[1..], rest, i - |line| - 2);
    }
  }

  lemma MatchChar(s: string, pat: string, i: nat, j: nat, fold: bool)
    requires j < |pat|
    ensures MatchAt(s, pat, i, fold) ==> i + j < |s| && Same(s[i + j], pat[j], fold)
  {
  }

  lemma LengthChars(j: nat)
    requires j < |CONTENT_LENGTH|
    ensures ToLower(CONTENT_LENGTH[j]) != '\r' && ToLower(CONTENT_LENGTH[j]) != '\n'
  {
  }

  /** The Content-Length text does not occur, nor begin, in lines that do not contain it. */
  lemma {:induction false} NoLength(lines: seq<string>, rest: string, i: nat)
    requires AllClean(lines) && NoLengthIn(lines) && i < |Lines(lines)|
    ensures !MatchAt(Lines(lines) + rest, CONTENT_LENGTH, i, true)
  {
    var line, more := lines[0], Lines(lines[1..]) + rest;
    var s := Lines(lines) + rest;
    assert s == line + CRLF + more;
    LineEnd(line, more);
    Sizes();
    if i + CONTENT_LENGTH_SIZE <= |line| {
      MatchInPrefix(line, s, CONTENT_LENGTH, i, true);
      FindSpec(line, CONTENT_LENGTH, true);
    } else if i <= |line| {
      LengthChars(|line| - i);
      MatchChar(s, CONTENT_LENGTH, i, |line| - i, true);
    } else if i == |line| + 1 {
      LengthChars(0);
      MatchChar(s, CONTENT_LENGTH, i, 0, true);
    } else {
      MatchShift(line + CRLF, more, CONTENT_LENGTH, i, true);
      NoLength(lines[1..], rest, i - |line| - 2);
    }
  }

  lemma {:induction false} LinesEnd(lines: seq<string>)
    requires lines != []
    ensures |Lines(lines)| >= 2 && Lines(lines)[|Lines(lines)| - 2..] == CRLF
  {
    if |lines| > 1 {
      LinesEnd(lines[1..]);
    } else {
      assert Lines(lines) == lines[0] + CRLF + [];
    }
  }

  /** The header ends where the empty line is. */
  lemma HeaderEnd(lines: seq<string>, rest: string)
    requires AllClean(lines) && lines != []
    ensures Find(Lines(lines) + CRLF + rest, HEADER_TERMINATOR, false) + HEADER_TERMINATOR_SIZE == |Lines(lines) + CRLF|
  {
    var s := Lines(lines) + CRLF + rest;
    var k := |Lines(lines)| - 2;
    LinesEnd(lines);
    assert s[k] == Lines(lines)[k..][0] && s[k + 1] == Lines(lines)[k..][1];
    TerminatorChars(s, k);
    forall i | 0 <= i < k
      ensures !MatchAt(s, HEADER_TERMINATOR, i, false)
    {
      NoTerminator(lines, rest, i);
    }
    FindIs(s, HEADER_TERMINATOR, false, k);
  }

  /** The first occurrence of Content-Length is the header of that name. */
  lemma LengthPosition(lines: seq<string>, rest: string)
    requires AllClean(lines) && NoLengthIn(lines)
    ensures Find(Lines(lines) + (CONTENT_LENGTH + rest), CONTENT_LENGTH, true) == |Lines(lines)|
  {
    var s := Lines(lines) + (CONTENT_LENGTH + rest);
    var k := |Lines(lines)|;
    assert forall j :: 0 <= j < |CONTENT_LENGTH| ==> Same(s[k + j], CONTENT_LENGTH[j], true);
    forall i | 0 <= i < k
      ensures !MatchAt(s, CONTENT_LENGTH, i, true)
    {
      NoLength(lines, CONTENT_LENGTH + rest, i);
    }
    FindIs(s, CONTENT_LENGTH, true, k);
  }

  lemma TextIsClean(n: nat)
    ensures Clean(CONTENT_LENGTH + ToText(n)) && CONTENT_LENGTH + ToText(n) != []
  {
    var s := CONTENT_LENGTH + ToText(n);
    forall i | 0 <= i < |s|
      ensures s[i] != '\r' && s[i] != '\n'
    {
      if i < |CONTENT_LENGTH| {
        LengthChars(i);
      } else {
        assert IsDigit(ToText(n)[i - |CONTENT_LENGTH|]);
      }
    }
  }

  lemma Reassociate<T>(a: seq<T>, b: seq<T>, c: seq<T>, x: seq<T>, d: seq<T>, e: seq<T>)
    ensures a + (b + c) + x + d + x + e == a + (b + (c + (x + (d + x + e))))
  {
    assert a + (b + c) == a + (b + c);
    assert a + (b + c) + x + d + x + e == a + (b + c) + (x + (d + x + e));
    assert b + c + (x + (d + x + e)) == b + (c + (x + (d + x + e)));
  }

  /** Header lines with a content length among them, an empty line, and what follows. */
  function Framed(first: seq<string>, n: nat, last: seq<string>, rest: string): string {
    Lines(first + [CONTENT_LENGTH + ToText(n)] + last) + CRLF + rest
  }

  /** The message around the Content-Length header. */
  lemma FramedParts(first: seq<string>, n: nat, last: seq<string>, rest: string)
    ensures Framed(first, n, last, rest)
            == Lines(first) + (CONTENT_LENGTH + (ToText(n) + (CRLF + (Lines(last) + CRLF + rest))))
  {
    var text := CONTENT_LENGTH + ToText(n);
    LinesAppend(first + [text], last);
    LinesPush(first, text);
    Reassociate(Lines(first), CONTENT_LENGTH, ToText(n), CRLF, Lines(last), rest);
  }

  lemma Regroup(a: string, b: string, c: string, d: string)
    ensures a + (b + (c + d)) == a + b + c + d
  {
  }

  lemma NumberIsAnnounced(s: string, before: string, n: nat, after: string)
    requires s == before + (CONTENT_LENGTH + (ToText(n) + after)) && n < 0x8000_0000
    requires after != [] && !IsDigit(after[0])
    ensures |before| + CONTENT_LENGTH_SIZE <= |s| && Announced(s, |before|) == n
    ensures NumberEnd(s, |before| + CONTENT_LENGTH_SIZE) == |before| + CONTENT_LENGTH_SIZE + |ToText(n)|
  {
    Sizes();
    ReadBack(before + CONTENT_LENGTH, n, after);
    Regroup(before, CONTENT_LENGTH, ToText(n), after);
  }

  /** The reader finds the announced length. */
  lemma LengthIsFound(first: seq<string>, n: nat, last: seq<string>, rest: string)
    requires AllClean(first) && NoLengthIn(first) && n < 0x8000_0000
    ensures var s := Framed(first, n, last, rest);
            var at := Find(s, CONTENT_LENGTH, true);
            && at == |Lines(first)| && at + CONTENT_LENGTH_SIZE <= |s| && Announced(s, at) == n
            && NumberEnd(s, at + CONTENT_LENGTH_SIZE) == at + CONTENT_LENGTH_SIZE + |ToText(n)|
  {
    var after := CRLF + (Lines(last) + CRLF + rest);
    FramedParts(first, n, last, rest);
    LengthPosition(first, ToText(n) + after);
    NumberIsAnnounced(Framed(first, n, last, rest), Lines(first), n, after);
  }

  /** The reader finds the end of the header. */
  lemma HeaderIsDelimited(first: seq<string>, n: nat, last: seq<string>, rest: string)
    requires AllClean(first) && AllClean(last)
    ensures Find(Framed(first, n, last, rest), HEADER_TERMINATOR, false) + HEADER_TERMINATOR_SIZE
            == |Framed(first, n, last, [])|
  {
    TextIsClean(n);
    HeaderEnd(first + [CONTENT_LENGTH + ToText(n)] + last, rest);
  }

  lemma Middle(a: string, b: string, c: string)
    ensures (a + b + c)[|a|..|a| + |b|] == b && |a| + |b| <= |a + b + c|
  {
  }

  lemma MessageIsFramed(post: Post)
    ensures Message(post) == Framed(FirstLines(post), |BodyText(post)|, LastLines(post), BodyText(post) + CRLF)
    ensures Message(post) == Framed(FirstLines(post), |BodyText(post)|, LastLines(post), []) + BodyText(post) + CRLF
  {
    assert Lines(HeaderLines(post)) + CRLF + [] == Lines(HeaderLines(post)) + CRLF;
    assert Message(post) == Lines(HeaderLines(post)) + CRLF + (BodyText(post) + CRLF);
  }

  /**
   Round trip: the searches of the reader find, in the message that compute_post_request
   writes, exactly the body fields joined with '&'; only a line end follows.
   */
  lemma PostRoundTrip(post: Post)
    requires Sendable(post)
    ensures BodyOf(Message(post)) == Some(BodyText(post))
    ensures var start := Find(Message(post), HEADER_TERMINATOR, false) + HEADER_TERMINATOR_SIZE;
            start + |BodyText(post)| <= |Message(post)| && Message(post)[start + |BodyText(post)|..] == "\r\n"
  {
    var first, n, last := FirstLines(post), |BodyText(post)|, LastLines(post);
    MessageIsFramed(post);
    LengthIsFound(first, n, last, BodyText(post) + CRLF);
    HeaderIsDelimited(first, n, last, BodyText(post) + CRLF);
    Middle(Framed(first, n, last, []), BodyText(post), CRLF);
  }

  // ---------- The header, line by line ----------

  /** The lines of a message up to the first empty one. */
  function HeaderOf(s: string): (lines: seq<string>)
    decreases |s|
  {
    var k := Find(s, "\r\n", false);
    if k <= 0 then [] else [s[..k]] + HeaderOf(s[k + 2..])
  }

  /** The value of a header field, if the line is one of this name. */
  function ValueOf(line: string, name: string): seq<string> {
    if name <= line then [line[|name|..]] else []
  }

  /** The values of the header fields of this name, in order. */
  function Values(lines: seq<string>, name: string): seq<string> {
    if lines == [] then [] else ValueOf(lines[0], name) + Values(lines[1..], name)
  }

  /** What a request line asks for. */
  function Target(line: string): Option<string> {
    if |line| >= 14 && line[..5] == "POST " && line[|line| - 9..] == " HTTP/1.1" then Some(line[5..|line| - 9]) else None
  }

  lemma LineIsCut(line: string, rest: string)
    requires Clean(line)
    ensures Find(line + CRLF + rest, "\r\n", false) == |line|
  {
    var s := line + CRLF + rest;
    LineEnd(line, rest);
    assert MatchAt(s, "\r\n", |line|, false);
    forall i | 0 <= i < |line|
      ensures !MatchAt(s, "\r\n", i, false)
    {
      MatchChar(s, "\r\n", i, 0, false);
    }
    FindIs(s, "\r\n", false, |line|);
  }

  /** Cutting at the line ends gives back the lines that were written. */
  lemma {:induction false} HeaderOfLines(lines: seq<string>, rest: string)
    requires AllClean(lines)
    ensures HeaderOf(Lines(lines) + CRLF + rest) == lines
  {
    var s := Lines(lines) + CRLF + rest;
    if lines == [] {
      assert s == [] + CRLF + rest;
      LineIsCut([], rest);
    } else {
      var more := Lines(lines[1..]) + CRLF + rest;
      assert s == lines[0] + CRLF + more;
      LineIsCut(lines[0], more);
      assert s[..|lines[0]|] == lines[0] && s[|lines[0]| + 2..] == more;
      HeaderOfLines(lines[1..], rest);
    }
  }

  /** No text begins with both. */
  predicate Apart(a: string, b: string) {
    exists i :: 0 <= i < |a| && i < |b| && a[i] != b[i]
  }

  lemma OtherName(name: string, other: string, value: string)
    requires Apart(name, other)
    ensures ValueOf(other + value, name) == []
  {
    var i :| 0 <= i < |name| && i < |other| && name[i] != other[i];
    assert (other + value)[i] == other[i];
  }

  lemma OwnName(name: string, value: string)
    ensures ValueOf(name + value, name) == [value]
  {
    assert (name + value)[|name|..] == value;
  }

  /** Lines that begin with the same name. */
  function Named(name: string, values: seq<string>): (lines: seq<string>)
    ensures |lines| == |values| && forall i :: 0 <= i < |lines| ==> lines[i] == name + values[i]
  {
    seq(|values|, i requires 0 <= i < |values| => name + values[i])
  }

  lemma {:induction false} NamedValues(name: string, other: string, values: seq<string>)
    ensures Values(Named(name, values), name) == values
    ensures Apart(other, name) ==> Values(Named(name, values), other) == []
  {
    if values != [] {
      assert Named(name, values)[1..] == Named(name, values[1..]);
      NamedValues(name, other, values[1..]);
      OwnName(name, values[0]);
      if Apart(other, name) {
        OtherName(other, name, values[0]);
      }
    }
  }

  lemma OneThenMore(line: string, more: seq<string>, name: string)
    ensures Values([line] + more, name) == ValueOf(line, name) + Values(more, name)
  {
    assert ([line] + more)[1..] == more;
  }

  lemma FourThenMore(a: string, b: string, c: string, d: string, more: seq<string>, name: string)
    ensures Values([a, b, c, d] + more, name)
            == ValueOf(a, name) + (ValueOf(b, name) + (ValueOf(c, name) + (ValueOf(d, name) + Values(more, name))))
  {
    assert [a, b, c, d] + more == [a] + ([b] + ([c] + ([d] + more)));
    OneThenMore(a, [b] + ([c] + ([d] + more)), name);
    OneThenMore(b, [c] + ([d] + more), name);
    OneThenMore(c, [d] + more, name);
    OneThenMore(d, more, name);
  }

  /** Five names of which no two can begin one line. */
  ghost predicate AllApart(n0: string, n1: string, n2: string, n3: string, n4: string) {
    && Apart(n1, n0) && Apart(n1, n2) && Apart(n1, n3) && Apart(n1, n4)
    && Apart(n2, n0) && Apart(n2, n1) && Apart(n2, n3) && Apart(n2, n4)
    && Apart(n3, n0) && Apart(n3, n1) && Apart(n3, n2) && Apart(n3, n4)
    && Apart(n4, n0) && Apart(n4, n1) && Apart(n4, n2) && Apart(n4, n3)
  }

  lemma OwnOrOther(name: string, other: string, value: string)
    requires name == other || Apart(name, other)
    ensures ValueOf(other + value, name) == if name == other then [value] else []
  {
    if name == other {
      OwnName(name, value);
    } else {
      OtherName(name, other, value);
    }
  }

  lemma FieldIs(n0: string, n1: string, n2: string, n3: string,
                v0: string, v1: string, v2: string, v3: string, more: seq<string>, name: string)
    requires Apart(name, n0) && (name == n1 || Apart(name, n1)) && (name == n2 || Apart(name, n2))
    requires name == n3 || Apart(name, n3)
    requires !(name == n1 && name == n2) && !(name == n1 && name == n3) && !(name == n2 && name == n3)
    ensures Values([n0 + v0, n1 + v1, n2 + v2, n3 + v3] + more, name)
            == (if name == n1 then [v1] else if name == n2 then [v2] else if name == n3 then [v3] else [])
               + Values(more, name)
  {
    FourThenMore(n0 + v0, n1 + v1, n2 + v2, n3 + v3, more, name);
    OtherName(name, n0, v0);
    OwnOrOther(name, n1, v1);
    OwnOrOther(name, n2, v2);
    OwnOrOther(name, n3, v3);
  }

  lemma FieldsOf(n0: string, n1: string, n2: string, n3: string, n4: string,
                 v0: string, v1: string, v2: string, v3: string, vs: seq<string>)
    requires AllApart(n0, n1, n2, n3, n4)
    ensures var lines := [n0 + v0, n1 + v1, n2 + v2, n3 + v3] + Named(n4, vs);
            && Values(lines, n1) == [v1] && Values(lines, n2) == [v2] && Values(lines, n3) == [v3]
            && Values(lines, n4) == vs
  {
    var more := Named(n4, vs);
    FieldIs(n0, n1, n2, n3, v0, v1, v2, v3, more, n1);
    FieldIs(n0, n1, n2, n3, v0, v1, v2, v3, more, n2);
    FieldIs(n0, n1, n2, n3, v0, v1, v2, v3, more, n3);
    FieldIs(n0, n1, n2, n3, v0, v1, v2, v3, more, n4);
    NamedValues(n4, n1, vs);
    NamedValues(n4, n2, vs);
    NamedValues(n4, n3, vs);
  }

  lemma NamesApart()
    ensures AllApart("POST ", "Host: ", "Content-Type: ", "Content-Length: ", "Cookie: ")
  {
    var p, h, t, l, c := "POST ", "Host: ", "Content-Type: ", "Content-Length: ", "Cookie: ";
    assert p[0] == 'P' && h[0] == 'H' && t[0] == l[0] == c[0] == 'C';
    assert t[2] == l[2] == 'n' && c[2] == 'o';
    assert t[8] == 'T' && l[8] == 'L';
  }

  function Cookies(post: Post): seq<string> {
    match post.cookies case None => [] case Some(cookies) => cookies
  }

  /** The arguments that end up in header lines contain no line breaks. */
  ghost predicate CleanPost(post: Post) {
    Clean(post.url) && Clean(post.host) && Clean(post.contentType)
    && forall i :: 0 <= i < |Cookies(post)| ==> Clean(Cookies(post)[i])
  }

  /** A message from which the arguments can be read back. */
  ghost predicate Carries(message: string, post: Post) {
    var lines := HeaderOf(message);
    && |lines| == 4 + |Cookies(post)| && Target(lines[0]) == Some(post.url)
    && "Host: " <= lines[1] && "Content-Type: " <= lines[2] && "Content-Length: " <= lines[3]
    && Values(lines, "Host: ") == [post.host]
    && Values(lines, "Content-Type: ") == [post.contentType]
    && Values(lines, "Content-Length: ") == [ToText(|BodyText(post)|)]
    && Values(lines, "Cookie: ") == Cookies(post)
  }

  lemma CleanAppend(a: string, b: string)
    requires Clean(a) && Clean(b)
    ensures Clean(a + b)
  {
    assert forall i :: 0 <= i < |a| ==> (a + b)[i] == a[i];
    assert forall i :: |a| <= i < |a + b| ==> (a + b)[i] == b[i - |a|];
  }

  lemma HeaderIsClean(post: Post)
    requires CleanPost(post)
    ensures AllClean(HeaderLines(post))
  {
    CleanAppend("POST ", post.url);
    CleanAppend("POST " + post.url, " HTTP/1.1");
    CleanAppend("Host: ", post.host);
    CleanAppend("Content-Type: ", post.contentType);
    TextIsClean(|BodyText(post)|);
    forall i | 0 <= i < |LastLines(post)|
      ensures Clean(LastLines(post)[i]) && LastLines(post)[i] != []
    {
      CleanAppend("Cookie: ", Cookies(post)[i]);
    }
  }

  lemma HeaderIsNamed(post: Post)
    ensures HeaderLines(post)
            == ["POST " + (post.url + " HTTP/1.1"), "Host: " + post.host, "Content-Type: " + post.contentType,
                "Content-Length: " + ToText(|BodyText(post)|)] + Named("Cookie: ", Cookies(post))
  {
    assert "POST " + post.url + " HTTP/1.1" == "POST " + (post.url + " HTTP/1.1");
    assert LastLines(post) == Named("Cookie: ", Cookies(post));
  }

  lemma TargetIs(url: string)
    ensures Target("POST " + (url + " HTTP/1.1")) == Some(url)
  {
    var line := "POST " + (url + " HTTP/1.1");
    assert line[..5] == "POST " && line[|line| - 9..] == " HTTP/1.1" && line[5..|line| - 9] == url;
  }

  /** Round trip for the header: cut at the line ends, it gives back url, host, content type, length and cookies. */
  lemma HeaderRoundTrip(post: Post)
    requires CleanPost(post)
    ensures Carries(Message(post), post)
  {
    HeaderIsClean(post);
    assert Message(post) == Lines(HeaderLines(post)) + CRLF + (BodyText(post) + CRLF);
    HeaderOfLines(HeaderLines(post), BodyText(post) + CRLF);
    TargetIs(post.url);
    HeaderIsNamed(post);
    NamesApart();
    FieldsOf("POST ", "Host: ", "Content-Type: ", "Content-Length: ", "Cookie: ", post.url + " HTTP/1.1",
             post.host, post.contentType, ToText(|BodyText(post)|), Cookies(post));
  }

  // ---------- The fields of the body ----------

  /** The pieces of a text between the separators. */
  function SplitOn(s: string, c: char): (pieces: seq<string>)
    ensures pieces != []
  {
    if s == [] then [[]]
    else
      var rest := SplitOn(s[1..], c);
      if s[0] == c then [[]] + rest else [[s[0]] + rest[0]] + rest[1..]
  }

  lemma {:induction false} SplitField(field: string, c: char, rest: string)
    requires c !in field
    ensures SplitOn(field, c) == [field] && SplitOn(field + [c] + rest, c) == [field] + SplitOn(rest, c)
  {
    if field == [] {
      assert (field + [c] + rest)[1..] == rest;
    } else {
      SplitField(field[1..], c, rest);
      assert (field + [c] + rest)[1..] == field[1..] + [c] + rest;
      assert [field[0]] + field[1..] == field;
    }
  }

  predicate PlainFields(fields: seq<string>) {
    forall i :: 0 <= i < |fields| ==> '&' !in fields[i]
  }

  /** Fields without a separator can be told apart again. */
  lemma {:induction false} FieldsRoundTrip(fields: seq<string>)
    requires fields != [] && PlainFields(fields)
    ensures SplitOn(Join(fields), '&') == fields
  {
    if |fields| == 1 {
      SplitField(fields[0], '&', []);
    } else {
      SplitField(fields[0], '&', Join(fields[1..]));
      FieldsRoundTrip(fields[1..]);
      assert "&" == ['&'];
    }
  }

  /** The body of the message consists of these fields. */
  ghost predicate HasFields(message: string, fields: seq<string>) {
    BodyOf(message).Some? && SplitOn(BodyOf(message).value, '&') == fields
  }

  /** What a server can read back from the message. */
  ghost predicate ReadsBack(message: string, post: Post) {
    && (CleanPost(post) ==> Carries(message, post))
    && (Sendable(post) ==>
          match post.body
          case None => BodyOf(message) == Some([])
          case Some(fields) => PlainFields(fields) ==> HasFields(message, fields))
  }

  lemma PostReadsBack(post: Post)
    requires post.body.Some? ==> post.body.value != []
    ensures ReadsBack(Message(post), post)
  {
    if CleanPost(post) {
      HeaderRoundTrip(post);
    }
    if Sendable(post) {
      PostRoundTrip(post);
    }
    if post.body.Some? && PlainFields(post.body.value) {
      FieldsRoundTrip(post.body.value);
    }
  }

  /** The first three lines. */
  method AddFirstLines(post: Post) returns (message: string)
    ensures message == Lines(FirstLines(post))
  {
    message := [];
    LinesPush([], "POST " + post.url + " HTTP/1.1");
    message := ComputeMessage(message, "POST " + post.url + " HTTP/1.1");
    LinesPush(FirstLines(post)[..1], "Host: " + post.host);
    message := ComputeMessage(message, "Host: " + post.host);
    LinesPush(FirstLines(post)[..2], "Content-Type: " + post.contentType);
    message := ComputeMessage(message, "Content-Type: " + post.contentType);
    assert [] + ["POST " + post.url + " HTTP/1.1"] == FirstLines(post)[..1];
    assert FirstLines(post)[..1] + ["Host: " + post.host] == FirstLines(post)[..2];
    assert FirstLines(post)[..2] + ["Content-Type: " + post.contentType] == FirstLines(post);
  }

  method ComputePostRequest(post: Post) returns (message: string)
    requires post.body.Some? ==> post.body.value != []
    ensures message == Message(post)
    ensures ReadsBack(message, post)
  {
    message := AddFirstLines(post);
    var body, size := [], 0;
    if post.body.Some? {
      body, size := JoinFields(post.body.value);
    }
    LinesPush(FirstLines(post), CONTENT_LENGTH + ToText(size));
    message := ComputeMessage(message, CONTENT_LENGTH + ToText(size));

    message := AddCookies(post, message);
    message := ComputeMessage(message, "");
    message := ComputeMessage(message, body);
    PostReadsBack(post);
  }
}
