/** What the parser refuses is refused with the right status.
    (projects/05-arcserve/src/protocol/http_parser.cpp; RFC 9110, section 15.5 and 15.6) */
module HttpRefusals {
  import opened HttpParser
  import opened HttpGrammar

  /** Three parts with a space between them; only the last may have spaces of its own, and the target and the
      version are not empty. */
  predicate Parts(line: string, word: string, target: string, version: string) {
    line == word + " " + target + " " + version && ' ' !in word && ' ' !in target && target != "" && version != ""
  }

  predicate RefusedWith(r: (Parser, StepResult), status: nat) {
    r.1 == Failed && r.0.error.Some? && r.0.error.value.status == status && !r.0.error.value.keepAlive
  }

  lemma PartsAreFound(line: string, word: string, target: string, version: string)
    requires Parts(line, word, target, version)
    ensures IndexOf(line, ' ') == |word| < |line| && line[..|word|] == word
    ensures var rest := line[|word| + 1..]; IndexOf(rest, ' ') == |target| < |rest| && rest[..|target|] == target && rest[|target| + 1..] == version
  {
    var rest := target + " " + version;
    assert line == word + " " + rest;
    assert line[..|word|] == word && line[|word|] == ' ' && line[|word| + 1..] == rest;
    FirstAt(line, ' ', |word|);
    assert rest[..|target|] == target && rest[|target|] == ' ' && rest[|target| + 1..] == version;
    FirstAt(rest, ' ', |target|);
  }

  /** A request line in three parts: 501 for a method other than GET and POST, else 400 for a target that does not
      start with '/', else 505 for a version other than HTTP/1.1; else it is accepted. */
  lemma PartsDecide(p: Parser, line: string, word: string, target: string, version: string)
    requires p.phase == RequestLine && Parts(line, word, target, version)
    ensures var r := FinishRequestLine(p, line);
            if word != "GET" && word != "POST" then RefusedWith(r, 501)
            else if target[0] != '/' then RefusedWith(r, 400)
            else if version != "HTTP/1.1" then RefusedWith(r, 505)
            else r.1 == Advanced
  {
    PartsAreFound(line, word, target, version);
  }

  lemma PartsOf(line: string, i: nat, j: nat)
    requires i < |line| && i == IndexOf(line, ' ') && j < |line[i + 1..]| && j == IndexOf(line[i + 1..], ' ')
    requires j > 0 && line[i + 1..][j + 1..] != ""
    ensures Parts(line, line[..i], line[i + 1..][..j], line[i + 1..][j + 1..])
  {
    var rest := line[i + 1..];
    CutAt(line, i);
    CutAt(rest, j);
    Regrouped(line[..i], rest[..j], rest[j + 1..]);
  }

  lemma Regrouped(a: string, b: string, c: string)
    ensures a + " " + (b + " " + c) == a + " " + b + " " + c
  {
  }

  /** And any other line gets 400. */
  lemma OtherLinesAreMalformed(p: Parser, line: string)
    requires p.phase == RequestLine && forall word, target, version :: !Parts(line, word, target, version)
    ensures RefusedWith(FinishRequestLine(p, line), 400)
  {
    var i := IndexOf(line, ' ');
    if i < |line| {
      var j := IndexOf(line[i + 1..], ' ');
      if j < |line[i + 1..]| && j > 0 && line[i + 1..][j + 1..] != "" { PartsOf(line, i, j); }
    }
  }

  /** A header line of the grammar for which there is no room: 431 for too many bytes, else 400 for a second
      Content-Length, else 431 for too many headers. */
  lemma NoRoomIsRefused(p: Parser, line: string, name: string, before: string, value: string, after: string)
    requires p.phase == Headers && IsHeaderLine(line, name, before, value, after) && !RoomFor(p, line, name)
    ensures RefusedWith(ConsumeHeaderLine(p, line),
              if p.seen + |line| + 2 > MAX_HEADER_BYTES then 431
              else if SameIgnoringCase(name, "Content-Length") && FindHeader(p.request.headers, "Content-Length").Some? then 400
              else 431)
  {
    var rest := before + value + after;
    assert line == name + ":" + rest;
    assert line[..|name|] == name && line[|name|] == ':' && line[|name| + 1..] == rest;
    FirstAt(line, ':', |name|);
  }

  lemma HeaderOf(line: string, colon: nat) returns (before: string, value: string, after: string)
    requires 0 < colon < |line| && colon == IndexOf(line, ':') && '\r' !in line && '\n' !in line && ' ' !in line[..colon] && '\t' !in line[..colon]
    ensures IsHeaderLine(line, line[..colon], before, value, after)
  {
    before, after := Trimmed(line[colon + 1..]);
    value := TrimRight(TrimLeft(line[colon + 1..]));
    assert line == line[..colon] + ":" + line[colon + 1..];
    Rejoin(line[..colon], before, value, after);
  }

  lemma Rejoin(name: string, before: string, value: string, after: string)
    ensures name + ":" + (before + value + after) == name + ":" + before + value + after
  {
  }

  /** A line that is not of the grammar gets 400. */
  lemma OtherHeadersAreMalformed(p: Parser, line: string)
    requires p.phase == Headers && line != ""
    requires forall name, before, value, after :: !IsHeaderLine(line, name, before, value, after)
    ensures RefusedWith(ConsumeHeaderLine(p, line), 400)
  {
    var colon := IndexOf(line, ':');
    if 0 < colon < |line| && '\r' !in line && '\n' !in line && ' ' !in line[..colon] && '\t' !in line[..colon] {
      var before, value, after := HeaderOf(line, colon);
    }
  }

  /** Headers that may not end: 411 for a POST without Content-Length, 400 for one that is no 64-bit number, 413
      for one above the limit. */
  lemma HeadersEndRefusal(p: Parser)
    requires FinishHeaders(p).1 == Failed
    ensures var h := FindHeader(p.request.headers, "Content-Length");
            RefusedWith(FinishHeaders(p),
              if h == None then 411
              else if h.value == "" || !Digits(h.value) || Decimal(h.value) >= 0x1_0000_0000_0000_0000 then 400
              else 413)
  {
  }
}
