/**
 The streaming response translator (internal/httpcm/h2handler.go): an HTTP/1 response arrives in arbitrary pieces and
 becomes a status, headers and a body (message format: section 2.1 of RFC 9112).
 */
module Translator {
  import opened Prelude

  type byte = x: int | 0 <= x < 256
  type Bytes = seq<byte>

  const CR: byte := 13
  const LF: byte := 10
  const SP: byte := 32
  const COLON: byte := 58
  const ZERO: byte := 48

  const CRLF: Bytes := [CR, LF]
  const SEP: Bytes := [CR, LF, CR, LF]

  const DASH: byte := 45

  /** One header line. */
  datatype Header = Header(name: Bytes, value: Bytes)

  /** An http.Header: the values of each canonical name, in the order they were added. */
  type Headers = map<Bytes, seq<Bytes>>

  /** What has reached the ResponseWriter; `status` is absent until WriteHeader, `crashed` once that has panicked. */
  datatype Output = Output(status: Option<int>, headers: Headers, body: Bytes, crashed: bool)

  const Nothing := Output(None, map[], [], false)
  const Crash := Output(None, map[], [], true)

  /** The codes net/http's WriteHeader takes; it panics on all others. */
  predicate Writable(code: int) {
    100 <= code <= 999
  }

  // ----- Scanning -----

  /** An empty line ends at position `i + 4`. */
  predicate SepHere(data: Bytes, i: nat) {
    i + 4 <= |data| && data[i] == CR && data[i + 1] == LF && data[i + 2] == CR && data[i + 3] == LF
  }

  /** The first position at or after `i` where the head ends. */
  function FindSep(data: Bytes, i: nat): (r: Option<nat>)
    ensures r.Some? ==> i <= r.value && SepHere(data, r.value) && forall k: nat :: i <= k < r.value ==> !SepHere(data, k)
    ensures r.None? ==> forall k: nat :: i <= k ==> !SepHere(data, k)
    decreases |data| - i
  {
    if i + 4 > |data| then None
    else if SepHere(data, i) then Some(i)
    else FindSep(data, i + 1)
  }

  /** The first position at or after `i` of the byte `b`. */
  function IndexOf(s: Bytes, b: byte, i: nat): (r: Option<nat>)
    requires i <= |s|
    ensures r.Some? ==> i <= r.value < |s| && s[r.value] == b && forall k :: i <= k < r.value ==> s[k] != b
    ensures r.None? ==> forall k :: i <= k < |s| ==> s[k] != b
    decreases |s| - i
  {
    if i == |s| then None else if s[i] == b then Some(i) else IndexOf(s, b, i + 1)
  }

  predicate IsSpace(b: byte) {
    9 <= b <= 13 || b == SP
  }

  predicate IsBreak(b: byte) {
    b == CR || b == LF
  }

  function TrimRight(s: Bytes): (t: Bytes) {
    if s != [] && IsSpace(s[|s| - 1]) then TrimRight(s[..|s| - 1]) else s
  }

  function TrimLeft(s: Bytes): (t: Bytes) {
    if s != [] && IsSpace(s[0]) then TrimLeft(s[1..]) else s
  }

  function TrimSpace(s: Bytes): (t: Bytes) {
    TrimLeft(TrimRight(s))
  }

  /** TrimRight with the cutset "\r\n". */
  function TrimBreaks(s: Bytes): (t: Bytes) {
    if s != [] && IsBreak(s[|s| - 1]) then TrimBreaks(s[..|s| - 1]) else s
  }

  /** ReadString('\n'): the line with its newline and what follows, or the rest and end of file. */
  function ReadLine(s: Bytes): (r: (Bytes, Bytes, bool))
    ensures !r.2 ==> |r.1| < |s|
  {
    match IndexOf(s, LF, 0)
    case Some(k) => (s[..k + 1], s[k + 1..], false)
    case None => (s, [], true)
  }

  // ----- Parsing a head -----

  /** strconvAtoi, in an `int64` that wraps. */
  function Atoi(s: Bytes): (n: Option<int>) {
    if s == [] then Some(0)
    else
      var d := s[|s| - 1];
      match Atoi(s[..|s| - 1])
      case None => None
      case Some(n) => if ZERO <= d <= ZERO + 9 then Some(Wrap64(n * 10 + (d - ZERO))) else None
  }

  /** The second space-separated field. */
  function SecondField(s: Bytes): (field: Option<Bytes>) {
    match IndexOf(s, SP, 0)
    case None => None
    case Some(i) =>
      match IndexOf(s, SP, i + 1)
      case None => Some(s[i + 1..])
      case Some(j) => Some(s[i + 1..j])
  }

  /** 200 unless the status line's second field is a number. */
  function StatusOf(line: Bytes): (status: int) {
    match SecondField(TrimSpace(line))
    case None => 200
    case Some(field) => (match Atoi(field) case None => 200 case Some(n) => n)
  }

  function HeaderOf(s: Bytes): (hs: seq<Header>) {
    match IndexOf(s, COLON, 0)
    case None => []
    case Some(k) => [Header(TrimSpace(s[..k]), TrimSpace(s[k + 1..]))]
  }

  /** The header loop: it stops at end of file without looking at the unterminated line it was given. */
  function HeadersOf(s: Bytes): (hs: seq<Header>)
    decreases |s|
  {
    var (line, rest, eof) := ReadLine(s);
    if eof || TrimBreaks(line) == [] then [] else HeaderOf(TrimBreaks(line)) + HeadersOf(rest)
  }

  // ----- Collecting headers (net/http's Header.Add) -----

  predicate IsUpper(b: byte) {
    65 <= b <= 90
  }

  predicate IsLower(b: byte) {
    97 <= b <= 122
  }

  /** A token byte, section 5.6.2 of RFC 9110. */
  predicate IsToken(b: byte) {
    IsUpper(b) || IsLower(b) || ZERO <= b <= ZERO + 9
    || b == 33 || 35 <= b <= 39 || b == 42 || b == 43 || b == DASH || b == 46 || 94 <= b <= 96 || b == 124 || b == 126
  }

  /** A letter is upper case at the start and after a dash, lower case elsewhere. */
  function Recased(b: byte, first: bool): (c: byte) {
    if first && IsLower(b) then b - 32 else if !first && IsUpper(b) then b + 32 else b
  }

  predicate AllTokens(name: Bytes) {
    forall i :: 0 <= i < |name| ==> IsToken(name[i])
  }

  function RecasedAll(name: Bytes): (c: Bytes)
    ensures |c| == |name|
  {
    seq(|name|, i requires 0 <= i < |name| => Recased(name[i], i == 0 || name[i - 1] == DASH))
  }

  /** The canonical name; one with a byte that is not a token's is left as it is. */
  function Canonical(name: Bytes): (c: Bytes) {
    if AllTokens(name) then RecasedAll(name) else name
  }

  function Values(hs: Headers, name: Bytes): (v: seq<Bytes>) {
    if name in hs then hs[name] else []
  }

  /** Header.Add. */
  function Added(hs: Headers, name: Bytes, value: Bytes): (r: Headers) {
    hs[Canonical(name) := Values(hs, Canonical(name)) + [value]]
  }

  function Grouped(lines: seq<Header>): (hs: Headers) {
    if lines == [] then map[]
    else
      var h := lines[|lines| - 1];
      Added(Grouped(lines[..|lines| - 1]), h.name, h.value)
  }

  lemma RecasedTwice(b: byte, first: bool)
    requires IsToken(b)
    ensures var c := Recased(b, first); IsToken(c) && (c == DASH <==> b == DASH) && Recased(c, first) == c
  {
  }

  lemma CanonicalTwice(name: Bytes)
    ensures Canonical(Canonical(name)) == Canonical(name)
  {
    if AllTokens(name) {
      hide IsToken, Recased;
      var c := RecasedAll(name);
      forall i | 0 <= i < |c|
        ensures IsToken(c[i]) && (c[i] == DASH <==> name[i] == DASH)
        ensures Recased(c[i], i == 0 || name[i - 1] == DASH) == c[i]
      {
        RecasedTwice(name[i], i == 0 || name[i - 1] == DASH);
      }
      assert RecasedAll(c) == c;
    }
  }

  /** Headers as Header.Add builds them. */
  predicate Collected(hs: Headers) {
    forall k :: k in hs ==> Canonical(k) == k && hs[k] != []
  }

  lemma {:induction false} GroupedIsCollected(lines: seq<Header>)
    ensures Collected(Grouped(lines))
  {
    if lines != [] {
      GroupedIsCollected(lines[..|lines| - 1]);
      CanonicalTwice(lines[|lines| - 1].name);
      hide Canonical;
    }
  }

  /** No added line goes unseen. */
  lemma GroupedSees(lines: seq<Header>, h: Header)
    ensures Grouped(lines + [h]) != Grouped(lines)
  {
    hide Canonical;
    assert (lines + [h])[..|lines|] == lines;
    var k := Canonical(h.name);
    assert Values(Grouped(lines + [h]), k) == Values(Grouped(lines), k) + [h.value];
  }

  lemma GroupedNothing(lines: seq<Header>)
    ensures Grouped(lines) == map[] <==> lines == []
  {
    hide Canonical;
    if lines != [] {
      assert Canonical(lines[|lines| - 1].name) in Grouped(lines);
    }
  }

  /** The whole translation of a stream. */
  function Translate(stream: Bytes): (out: Output) {
    match FindSep(stream, 0)
    case None => Nothing
    case Some(sep) =>
      var (line, rest, _) := ReadLine(stream[..sep]);
      if Writable(StatusOf(line)) then
        Output(Some(StatusOf(line)), Grouped(HeadersOf(rest)), stream[sep + 4..], false)
      else Crash
  }

  // ----- The translator, updated in place -----

  datatype State = State(buf: Bytes, parsed: bool, out: Output)

  const Initial := State([], false, Nothing)

  function Feed(s: State, p: Bytes): (after: State) {
    if s.out.crashed then s  // the panic ended the request: nothing is written any more
    else if s.parsed then s.(out := s.out.(body := s.out.body + p))
    else
      var data := s.buf + p;
      if FindSep(data, 0).None? then s.(buf := data)
      else if Translate(data).crashed then State(data, false, Crash)
      else State([], true, Translate(data))
  }

  /** The digit loop. */
  method ParseInt(s: Bytes) returns (n: int, ok: bool)
    ensures ok <==> Atoi(s).Some?
    ensures ok ==> n == Atoi(s).value
  {
    n := 0;
    for i := 0 to |s|
      invariant Atoi(s[..i]) == Some(n)
    {
      assert s[..i + 1][..i] == s[..i];
      if s[i] < ZERO || s[i] > ZERO + 9 {
        BadDigit(s, i + 1);
        return 0, false;
      }
      n := Wrap64(n * 10 + (s[i] - ZERO));
    }
    assert s[..|s|] == s;
    return n, true;
  }

  lemma {:induction false} BadDigit(s: Bytes, i: nat)
    requires i <= |s| && Atoi(s[..i]).None?
    ensures Atoi(s).None?
    decreases |s| - i
  {
    if i == |s| {
      assert s[..i] == s;
    } else {
      assert s[..i + 1][..i] == s[..i];
      BadDigit(s, i + 1);
    }
  }

  method ParseStatus(line: Bytes) returns (status: int)
    ensures status == StatusOf(line)
  {
    var field := SecondField(TrimSpace(line));
    status := 200;
    if field.Some? {
      var code, ok := ParseInt(field.value);
      if ok {
        status := code;
      }
    }
  }

  /** One header line is added; a line without a colon is skipped. */
  method AddLine(headers: Headers, s: Bytes, ghost seen: seq<Header>) returns (next: Headers)
    requires headers == Grouped(seen)
    ensures next == Grouped(seen + HeaderOf(s))
  {
    hide Added;
    var colon := IndexOf(s, COLON, 0);
    if colon.None? {
      assert seen + [] == seen;
      return headers;
    }
    var name, value := TrimSpace(s[..colon.value]), TrimSpace(s[colon.value + 1..]);
    next := Added(headers, name, value);
    assert (seen + [Header(name, value)])[..|seen|] == seen;
  }

  /** The header loop. */
  method ParseHeaders(text: Bytes) returns (headers: Headers)
    ensures headers == Grouped(HeadersOf(text))
  {
    var tail := text;
    headers := map[];
    ghost var seen: seq<Header> := [];
    while true
      invariant HeadersOf(text) == seen + HeadersOf(tail) && headers == Grouped(seen)
      decreases |tail|
    {
      hide HeaderOf, Grouped, TrimBreaks;
      var (l, next, end) := ReadLine(tail);
      if end {
        assert seen + [] == seen;
        break;
      }
      var s := TrimBreaks(l);
      if s == [] {
        assert seen + [] == seen;
        break;
      }
      assert HeadersOf(text) == (seen + HeaderOf(s)) + HeadersOf(next);
      headers := AddLine(headers, s, seen);
      seen, tail := seen + HeaderOf(s), next;
    }
  }

  /** The copy into the writer's header map, name by name in no particular order, value by value. */
  method CopyHeaders(headers: Headers) returns (copy: Headers)
    requires Collected(headers)
    ensures copy == headers
  {
    var rest := headers.Keys;
    copy := map[];
    while rest != {}
      invariant rest <= headers.Keys && copy == map k | k in headers && k !in rest :: headers[k]
      decreases rest
    {
      var k :| k in rest;
      copy := CopyValues(copy, k, headers[k]);
      rest := rest - {k};
    }
  }

  method CopyValues(headers: Headers, name: Bytes, values: seq<Bytes>) returns (copy: Headers)
    requires Canonical(name) == name && name !in headers && values != []
    ensures copy == headers[name := values]
  {
    hide Canonical;
    copy := headers;
    for i := 0 to |values|
      invariant copy == if i == 0 then headers else headers[name := values[..i]]
    {
      copy := Added(copy, name, values[i]);
      assert values[..i + 1] == values[..i] + [values[i]];
    }
    assert values[..|values|] == values;
  }

  class RespTranslator {
    var buf: Bytes
    var parsed: bool
    var out: Output

    function View(): (v: State)
      reads this
    {
      State(buf, parsed, out)
    }

    constructor ()
      ensures View() == Initial
    {
      buf, parsed, out := [], false, Nothing;
    }

    /** One Write; `out.crashed` stands for the panic of WriteHeader. */
    method Write(p: Bytes) returns (n: int)
      requires !out.crashed
      modifies this
      ensures View() == Feed(old(View()), p) && n == |p|
    {
      if parsed {
        out := out.(body := out.body + p);
        return |p|;
      }
      buf := buf + p;
      var sep := FindSep(buf, 0);
      if sep.None? {
        return |p|;
      }
      hide StatusOf, HeadersOf, Grouped;
      var (line, tail, _) := ReadLine(buf[..sep.value]);
      var status := ParseStatus(line);
      var headers := ParseHeaders(tail);
      GroupedIsCollected(HeadersOf(tail));
      headers := CopyHeaders(headers);
      if !Writable(status) {
        out := Crash;
        return |p|;
      }
      out, parsed := Output(Some(status), headers, buf[sep.value + 4..], false), true;
      buf := [];
      return |p|;
    }
  }

  // ----- Chunk independence -----

  function FeedAll(chunks: seq<Bytes>): (s: State) {
    if chunks == [] then Initial else Feed(FeedAll(chunks[..|chunks| - 1]), chunks[|chunks| - 1])
  }

  function Concat(chunks: seq<Bytes>): (stream: Bytes) {
    if chunks == [] then [] else Concat(chunks[..|chunks| - 1]) + chunks[|chunks| - 1]
  }

  /** More input does not move the end of the head. */
  lemma SepStays(data: Bytes, more: Bytes)
    requires FindSep(data, 0).Some?
    ensures FindSep(data + more, 0) == FindSep(data, 0)
  {
    var sep := FindSep(data, 0).value;
    assert SepHere(data + more, sep);
    forall k: nat | k < sep ensures !SepHere(data + more, k) {
      assert !SepHere(data, k);
    }
  }

  lemma TranslateGrows(data: Bytes, more: Bytes)
    requires FindSep(data, 0).Some?
    ensures Translate(data + more) ==
            if Translate(data).crashed then Crash else Translate(data).(body := Translate(data).body + more)
  {
    SepStays(data, more);
    var sep := FindSep(data, 0).value;
    assert (data + more)[..sep] == data[..sep];
    assert (data + more)[sep + 4..] == data[sep + 4..] + more;
  }

  /** However the stream is cut, the translator has emitted exactly the translation of what it has been given. */
  lemma {:induction false} ChunksDoNotMatter(chunks: seq<Bytes>)
    ensures var s, stream := FeedAll(chunks), Concat(chunks);
            && s.out == Translate(stream)
            && (s.parsed <==> FindSep(stream, 0).Some? && !s.out.crashed)
            && (!s.out.crashed ==> s.buf == if s.parsed then [] else stream)
  {
    if chunks != [] {
      var n := |chunks| - 1;
      var before, p := Concat(chunks[..n]), chunks[n];
      ChunksDoNotMatter(chunks[..n]);
      if FindSep(before, 0).Some? {
        SepStays(before, p);
        TranslateGrows(before, p);
      }
    }
  }

  /** The same as one Write of the whole; and nothing is emitted before the head is complete. */
  lemma OneWriteIsEnough(chunks: seq<Bytes>)
    ensures FeedAll(chunks).out == FeedAll([Concat(chunks)]).out
    ensures !FeedAll(chunks).out.crashed ==> FeedAll(chunks) == FeedAll([Concat(chunks)])
    ensures FindSep(Concat(chunks), 0).None? ==> FeedAll(chunks).out == Nothing
  {
    ChunksDoNotMatter(chunks);
    var whole := [Concat(chunks)];
    assert whole[..0] == [];
    assert Concat(whole[..0]) == [];
    assert Concat(whole) == Concat(chunks);
    ChunksDoNotMatter(whole);
  }

  // ----- What becomes of a well-formed response -----

  predicate Plain(s: Bytes) {
    forall i :: 0 <= i < |s| ==> !IsBreak(s[i])
  }

  predicate Trimmed(s: Bytes) {
    s != [] ==> !IsSpace(s[0]) && !IsSpace(s[|s| - 1])
  }

  predicate WellFormed(h: Header) {
    Plain(h.name) && Trimmed(h.name) && COLON !in h.name && Plain(h.value) && Trimmed(h.value)
  }

  function Line(h: Header): (line: Bytes) {
    h.name + [COLON, SP] + h.value
  }

  function Tail(hs: seq<Header>): (tail: Bytes) {
    if hs == [] then [] else CRLF + Line(hs[0]) + Tail(hs[1..])
  }

  /** A response as http.Response.Write lays it out. */
  function Wire(first: Bytes, hs: seq<Header>, body: Bytes): (stream: Bytes) {
    first + Tail(hs) + SEP + body
  }

  /** Every line break is followed by a byte that does not start another. */
  predicate Clean(s: Bytes) {
    && (forall i :: 0 <= i < |s| - 1 && s[i] == CR && s[i + 1] == LF ==> i + 2 < |s| && s[i + 2] != CR)
    && (s != [] ==> s[|s| - 1] != CR)
  }

  lemma CleanLine(s: Bytes, line: Bytes)
    requires Clean(s) && Plain(line) && line != []
    ensures Clean(s + CRLF + line)
  {
  }

  lemma LinePlain(h: Header)
    requires WellFormed(h)
    ensures Plain(Line(h)) && Line(h) != []
  {
  }

  lemma {:induction false} CleanTail(s: Bytes, hs: seq<Header>)
    requires Clean(s) && forall h :: h in hs ==> WellFormed(h)
    ensures Clean(s + Tail(hs))
    decreases |hs|
  {
    if hs == [] {
      assert s + Tail(hs) == s;
    } else {
      hide Clean, WellFormed, Line, Tail, Plain;
      LinePlain(hs[0]);
      CleanLine(s, Line(hs[0]));
      CleanTail(s + CRLF + Line(hs[0]), hs[1..]);
      TailCons(s, hs);
    }
  }

  lemma TailCons(s: Bytes, hs: seq<Header>)
    requires hs != []
    ensures s + CRLF + Line(hs[0]) + Tail(hs[1..]) == s + Tail(hs)
  {
    hide Line;
    Regroup(s, CRLF, Line(hs[0]), Tail(hs[1..]));
  }

  lemma Regroup(a: Bytes, b: Bytes, c: Bytes, d: Bytes)
    ensures a + b + c + d == a + (b + c + d)
  {
  }

  lemma SepAfterHead(head: Bytes, body: Bytes)
    requires Clean(head)
    ensures FindSep(head + SEP + body, 0) == Some(|head|)
  {
    var data := head + SEP + body;
    assert SepHere(data, |head|);
    forall k: nat | k < |head| ensures !SepHere(data, k) {
      assert data[k] == head[k];
      assert k + 1 < |head| ==> data[k + 1] == head[k + 1];
      assert k + 2 < |head| ==> data[k + 2] == head[k + 2];
    }
  }

  lemma TrimBreaksLine(line: Bytes)
    requires Plain(line)
    ensures TrimBreaks(line + CRLF) == line
  {
    var s := line + CRLF;
    assert s[..|s| - 1] == line + [CR];
    assert (line + [CR])[..|line|] == line;
    assert TrimBreaks(line + [CR]) == TrimBreaks(line);
  }

  lemma ReadOneLine(line: Bytes, rest: Bytes)
    requires Plain(line)
    ensures ReadLine(line + CRLF + rest) == (line + CRLF, rest, false)
  {
    var s := line + CRLF + rest;
    assert s[|line| + 1] == LF;
    assert forall k :: 0 <= k < |line| + 1 ==> s[k] != LF;
    assert IndexOf(s, LF, 0) == Some(|line| + 1);
    assert s[..|line| + 2] == line + CRLF && s[|line| + 2..] == rest;
  }

  lemma TrimValue(v: Bytes)
    requires Trimmed(v)
    ensures TrimSpace(v) == v && TrimSpace([SP] + v) == v
  {
    var s := [SP] + v;
    if v == [] {
      assert TrimRight([SP]) == TrimRight([SP][..0]);
    } else {
      assert s[|s| - 1] == v[|v| - 1];
      assert s[1..] == v;
    }
  }

  lemma HeaderOfLine(h: Header)
    requires WellFormed(h)
    ensures HeaderOf(Line(h)) == [h]
  {
    hide TrimSpace;
    var s := Line(h);
    assert s[|h.name|] == COLON && forall k :: 0 <= k < |h.name| ==> s[k] == h.name[k];
    assert IndexOf(s, COLON, 0) == Some(|h.name|);
    assert s[..|h.name|] == h.name && s[|h.name| + 1..] == [SP] + h.value;
    TrimValue(h.name);
    TrimValue(h.value);
  }

  /** The header loop keeps every header but the last, whose line has no newline left. */
  lemma {:induction false} LastHeaderDropped(h: Header, hs: seq<Header>)
    requires WellFormed(h) && forall x :: x in hs ==> WellFormed(x)
    ensures HeadersOf(Line(h) + Tail(hs)) == ([h] + hs)[..|hs|]
    decreases |hs|
  {
    hide WellFormed, Line, HeaderOf;
    LinePlain(h);
    if hs == [] {
      assert Line(h) + Tail(hs) == Line(h);
      assert IndexOf(Line(h), LF, 0).None?;
    } else {
      var rest := Line(hs[0]) + Tail(hs[1..]);
      assert Line(h) + Tail(hs) == Line(h) + CRLF + rest;
      ReadOneLine(Line(h), rest);
      TrimBreaksLine(Line(h));
      HeaderOfLine(h);
      LastHeaderDropped(hs[0], hs[1..]);
      assert hs == [hs[0]] + hs[1..];
      assert ([h] + hs)[..|hs|] == [h] + ([hs[0]] + hs[1..])[..|hs[1..]|];
    }
  }

  function AllButLast(hs: seq<Header>): (r: seq<Header>) {
    if hs == [] then [] else hs[..|hs| - 1]
  }

  /** The body survives, the status line is read, and exactly the last header is lost; or the code cannot be written. */
  lemma WireTranslated(first: Bytes, hs: seq<Header>, body: Bytes)
    requires Plain(first) && first != [] && forall h :: h in hs ==> WellFormed(h)
    ensures var code := StatusOf(if hs == [] then first else first + CRLF);
            Translate(Wire(first, hs, body)) ==
            if Writable(code) then Output(Some(code), Grouped(AllButLast(hs)), body, false) else Crash
  {
    hide StatusOf, WellFormed, Line, HeadersOf, Clean, Grouped;
    var head := first + Tail(hs);
    assert Clean(first) by { PlainIsClean(first); }
    CleanTail(first, hs);
    SepAfterHead(head, body);
    var data := Wire(first, hs, body);
    assert data[..|head|] == head && data[|head| + 4..] == body;
    if hs == [] {
      assert head == first;
      assert ReadLine(first) == (first, [], true);
      NoHeaders();
    } else {
      var rest := Line(hs[0]) + Tail(hs[1..]);
      assert head == first + CRLF + rest;
      ReadOneLine(first, rest);
      LastHeaderDropped(hs[0], hs[1..]);
      assert [hs[0]] + hs[1..] == hs;
    }
  }

  lemma PlainIsClean(s: Bytes)
    requires Plain(s)
    ensures Clean(s)
  {
  }

  lemma NoHeaders()
    ensures HeadersOf([]) == []
  {
  }

  /** So a response keeps all its headers exactly when it has none. */
  lemma HeadersKeptExactly(first: Bytes, hs: seq<Header>, body: Bytes)
    requires Plain(first) && first != [] && forall h :: h in hs ==> WellFormed(h)
    ensures Translate(Wire(first, hs, body)).headers == Grouped(hs) <==> hs == []
  {
    hide Translate, Wire, Grouped;
    WireTranslated(first, hs, body);
    GroupedNothing(hs);
    if hs != [] {
      GroupedSees(AllButLast(hs), hs[|hs| - 1]);
      assert AllButLast(hs) + [hs[|hs| - 1]] == hs;
    }
  }

  // ----- The status line -----

  function Decimal(n: nat): (digits: Bytes) {
    if n < 10 then [ZERO + n] else Decimal(n / 10) + [ZERO + n % 10]
  }

  /** Reading a printed number gives it back, as long as it fits. */
  lemma {:induction false} AtoiDecimal(n: nat)
    requires n < TWO_63
    ensures Atoi(Decimal(n)) == Some(n)
  {
    var s := Decimal(n);
    if n < 10 {
      assert s[..0] == [];
      assert Atoi(s[..0]) == Some(0);
    } else {
      AtoiDecimal(n / 10);
      assert s[..|s| - 1] == Decimal(n / 10);
    }
  }

  lemma {:induction false} DecimalDigits(n: nat)
    ensures Decimal(n) != [] && forall i :: 0 <= i < |Decimal(n)| ==> ZERO <= Decimal(n)[i] <= ZERO + 9
  {
    if n >= 10 {
      DecimalDigits(n / 10);
    }
  }

  /** Trimming on the right keeps everything up to any byte that is not a space. */
  lemma {:induction false} TrimRightKeeps(s: Bytes, k: nat)
    requires k < |s| && !IsSpace(s[k])
    ensures k < |TrimRight(s)| <= |s| && TrimRight(s) == s[..|TrimRight(s)|]
    decreases |s|
  {
    if IsSpace(s[|s| - 1]) {
      TrimRightKeeps(s[..|s| - 1], k);
    }
  }

  lemma SecondFieldOf(t: Bytes, proto: Bytes, digits: Bytes, line: Bytes, after: Bytes)
    requires SP !in proto && SP !in digits && line == proto + [SP] + digits + after && (after != [] ==> after[0] == SP)
    requires |proto| + 1 + |digits| <= |t| <= |line| && t == line[..|t|]
    ensures SecondField(t) == Some(digits)
  {
    var i := |proto|;
    assert forall k :: 0 <= k < i ==> t[k] == proto[k];
    assert t[i] == SP && IndexOf(t, SP, 0) == Some(i);
    var j := i + 1 + |digits|;
    assert forall k :: i + 1 <= k < j ==> t[k] == digits[k - i - 1];
    assert t[i + 1..j] == digits;
    if j < |t| {
      assert t[j] == line[j] == after[0] == SP;
      assert IndexOf(t, SP, i + 1) == Some(j);
    } else {
      assert t[i + 1..] == digits;
    }
  }

  /** A code as the status line prints it: at least three digits. */
  function Printed(code: nat): (digits: Bytes) {
    if code < 10 then [ZERO, ZERO] + Decimal(code) else if code < 100 then [ZERO] + Decimal(code) else Decimal(code)
  }

  lemma {:induction false} AtoiLeadingZero(s: Bytes)
    requires Atoi(s).Some?
    ensures Atoi([ZERO] + s) == Atoi(s)
  {
    var t := [ZERO] + s;
    if s == [] {
      assert t[..0] == [];
      assert Atoi(t[..0]) == Some(0);
    } else {
      assert t[..|t| - 1] == [ZERO] + s[..|s| - 1];
      AtoiLeadingZero(s[..|s| - 1]);
    }
  }

  lemma PrintedRead(code: nat)
    requires code < TWO_63
    ensures Atoi(Printed(code)) == Some(code)
    ensures Printed(code) != [] && forall i :: 0 <= i < |Printed(code)| ==> ZERO <= Printed(code)[i] <= ZERO + 9
  {
    AtoiDecimal(code);
    DecimalDigits(code);
    hide Atoi, Decimal;
    var d := Decimal(code);
    AtoiLeadingZero(d);
    AtoiLeadingZero([ZERO] + d);
    assert [ZERO, ZERO] + d == [ZERO] + ([ZERO] + d);
  }

  /** A status line gives back the code it was printed with. */
  lemma StatusRead(proto: Bytes, code: nat, reason: Bytes, breaks: Bytes)
    requires proto != [] && SP !in proto && !IsSpace(proto[0]) && code < TWO_63
    ensures StatusOf(proto + [SP] + Printed(code) + [SP] + reason + breaks) == code
  {
    hide Printed;
    var digits := Printed(code);
    var line := proto + [SP] + digits + [SP] + reason + breaks;
    PrintedRead(code);
    var k := |proto| + |digits|;
    assert line[k] == digits[|digits| - 1];
    TrimRightKeeps(line, k);
    var t := TrimRight(line);
    assert t[0] == proto[0] && TrimLeft(t) == t;
    assert line == proto + [SP] + digits + ([SP] + reason + breaks);
    SecondFieldOf(t, proto, digits, line, [SP] + reason + breaks);
  }

  /** A well-formed response panics the writer exactly when its code is outside 100 to 999. */
  lemma CrashesExactly(proto: Bytes, code: nat, reason: Bytes, hs: seq<Header>, body: Bytes)
    requires proto != [] && SP !in proto && !IsSpace(proto[0]) && code < TWO_63
    requires Plain(proto) && Plain(reason) && forall h :: h in hs ==> WellFormed(h)
    ensures Translate(Wire(proto + [SP] + Printed(code) + [SP] + reason, hs, body)).crashed <==> !Writable(code)
  {
    var first := proto + [SP] + Printed(code) + [SP] + reason;
    PrintedRead(code);
    hide Translate, WellFormed, StatusOf, Printed;
    assert Plain(first);
    WireTranslated(first, hs, body);
    StatusRead(proto, code, reason, []);
    StatusRead(proto, code, reason, CRLF);
    assert first + [] == first;
  }

  // ----- The parts of a head, byte by byte -----

  /** A head ends at carriage return, line feed, carriage return, line feed. */
  lemma HeadEndsExactly(data: Bytes, i: nat)
    ensures SepHere(data, i) <==> i + 4 <= |data| && data[i..i + 4] == [13, 10, 13, 10]
  {
  }

  /** One of tab, line feed, vertical tab, form feed, carriage return and space. */
  predicate Blank(s: Bytes) {
    forall i :: 0 <= i < |s| ==> s[i] in [9, 10, 11, 12, 13, 32]
  }

  lemma {:induction false} TrimRightExactly(v: Bytes, after: Bytes)
    requires Blank(after) && (v != [] ==> v[|v| - 1] !in [9, 10, 11, 12, 13, 32])
    ensures TrimRight(v + after) == v
    decreases |after|
  {
    var s := v + after;
    if after == [] {
      assert s == v;
    } else {
      assert s[..|s| - 1] == v + after[..|after| - 1];
      TrimRightExactly(v, after[..|after| - 1]);
    }
  }

  lemma {:induction false} TrimLeftExactly(before: Bytes, v: Bytes)
    requires Blank(before) && (v != [] ==> v[0] !in [9, 10, 11, 12, 13, 32])
    ensures TrimLeft(before + v) == v
    decreases |before|
  {
    var s := before + v;
    if before == [] {
      assert s == v;
    } else {
      assert s[1..] == before[1..] + v;
      TrimLeftExactly(before[1..], v);
    }
  }

  /** Trimming takes the blanks on both sides and nothing else. */
  lemma TrimExactly(before: Bytes, v: Bytes, after: Bytes)
    requires Blank(before) && Blank(after)
    requires v != [] ==> v[0] !in [9, 10, 11, 12, 13, 32] && v[|v| - 1] !in [9, 10, 11, 12, 13, 32]
    ensures TrimSpace(before + v + after) == v
  {
    if v == [] {
      assert before + v + after == [] + (before + after);
      TrimRightExactly([], before + after);
    } else {
      TrimRightExactly(before + v, after);
      TrimLeftExactly(before, v);
    }
  }

  /** A line loses the carriage returns and line feeds it ends with, however many. */
  lemma {:induction false} BreaksExactly(v: Bytes, breaks: Bytes)
    requires forall i :: 0 <= i < |breaks| ==> breaks[i] == 13 || breaks[i] == 10
    requires v != [] ==> v[|v| - 1] != 13 && v[|v| - 1] != 10
    ensures TrimBreaks(v + breaks) == v
    decreases |breaks|
  {
    var s := v + breaks;
    if breaks == [] {
      assert s == v;
    } else {
      assert s[..|s| - 1] == v + breaks[..|breaks| - 1];
      BreaksExactly(v, breaks[..|breaks| - 1]);
    }
  }

  /** Exactly the texts of decimal digits are numbers, the empty one zero. */
  lemma {:induction false} AtoiExactly(s: Bytes)
    ensures Atoi(s).Some? <==> forall i :: 0 <= i < |s| ==> 48 <= s[i] <= 57
    ensures s == [] ==> Atoi(s) == Some(0)
  {
    if s != [] {
      AtoiExactly(s[..|s| - 1]);
    }
  }

  /** The code is the text between the first two spaces of the trimmed line, or 200 when that is missing or no number. */
  lemma StatusExactly(line: Bytes, proto: Bytes, field: Bytes, after: Bytes)
    requires TrimSpace(line) == proto + [32] + field + after
    requires 32 !in proto && 32 !in field && (after != [] ==> after[0] == 32)
    ensures StatusOf(line) == if Atoi(field).Some? then Atoi(field).value else 200
  {
    var t := proto + [32] + field + after;
    SecondFieldOf(t, proto, field, t, after);
  }

  lemma StatusDefault(line: Bytes)
    requires 32 !in TrimSpace(line)
    ensures StatusOf(line) == 200
  {
  }

  /** A line is a header exactly when it has a colon; the first one ends the name, and both sides are trimmed. */
  lemma HeaderExactly(name: Bytes, value: Bytes)
    requires 58 !in name
    ensures HeaderOf(name) == []
    ensures HeaderOf(name + [58] + value) == [Header(TrimSpace(name), TrimSpace(value))]
  {
    var s := name + [58] + value;
    assert s[|name|] == 58 && forall k :: 0 <= k < |name| ==> s[k] == name[k];
    assert IndexOf(s, COLON, 0) == Some(|name|);
    assert s[..|name|] == name && s[|name| + 1..] == value;
  }

  /** The header loop, line by line: a terminated line that is not empty is read and the loop goes on; an empty one and
      an unterminated one end it. */
  lemma HeaderLoopExactly(line: Bytes, rest: Bytes)
    requires 10 !in line
    ensures HeadersOf(line) == []
    ensures HeadersOf(line + [10] + rest) ==
            if TrimBreaks(line) == [] then [] else HeaderOf(TrimBreaks(line)) + HeadersOf(rest)
  {
    var s := line + [10] + rest;
    assert s[|line|] == 10 && forall k :: 0 <= k < |line| ==> s[k] == line[k];
    assert IndexOf(s, LF, 0) == Some(|line|);
    assert s[..|line| + 1] == line + [10] && s[|line| + 1..] == rest;
    assert (line + [10])[..|line|] == line;
    assert TrimBreaks(line + [10]) == TrimBreaks(line);
    assert IndexOf(line, LF, 0).None?;
  }

  // ----- Header names and values -----

  /** The bytes a name may have to be put in canonical form. */
  predicate NameByte(b: byte) {
    65 <= b <= 90 || 97 <= b <= 122 || 48 <= b <= 57 || (b as char) in "!#$%&'*+-.^_`|~"
  }

  /** In a canonical name a letter is upper case exactly at the start and after a dash, and nothing but case has changed;
      a name with any other byte is left alone. */
  lemma CanonicalExactly(name: Bytes, i: nat)
    requires i < |name|
    ensures |Canonical(name)| == |name|
    ensures (exists k :: 0 <= k < |name| && !NameByte(name[k])) ==> Canonical(name) == name
    ensures (forall k :: 0 <= k < |name| ==> NameByte(name[k])) ==>
              var c, starts := Canonical(name)[i], i == 0 || name[i - 1] == 45;
              && (starts ==> !(97 <= c <= 122)) && (!starts ==> !(65 <= c <= 90))
              && (c == name[i] || (97 <= name[i] <= 122 && c == name[i] - 32) || (65 <= name[i] <= 90 && c == name[i] + 32))
  {
    forall k | 0 <= k < |name| ensures NameByte(name[k]) <==> IsToken(name[k]) {
      NameBytes(name[k]);
    }
    RecasedExactly(name[i], i == 0 || name[i - 1] == DASH);
    hide NameByte, IsToken, Recased;
  }

  lemma RecasedExactly(b: byte, first: bool)
    ensures var c := Recased(b, first);
            && (first ==> !(97 <= c <= 122)) && (!first ==> !(65 <= c <= 90))
            && (c == b || (97 <= b <= 122 && c == b - 32) || (65 <= b <= 90 && c == b + 32))
  {
  }

  lemma NameBytes(b: byte)
    ensures NameByte(b) <==> IsToken(b)
  {
    var others := "!#$%&'*+-.^_`|~";
    assert others[0] == 33 as char && others[1] == 35 as char && others[2] == 36 as char && others[3] == 37 as char;
    assert others[4] == 38 as char && others[5] == 39 as char && others[6] == 42 as char && others[7] == 43 as char;
    assert others[8] == 45 as char && others[9] == 46 as char && others[10] == 94 as char && others[11] == 95 as char;
    assert others[12] == 96 as char && others[13] == 124 as char && others[14] == 126 as char;
  }

  /** The values of the lines whose canonical name is `name`, in order. */
  function ValuesOf(lines: seq<Header>, name: Bytes): (values: seq<Bytes>) {
    if lines == [] then []
    else
      var h := lines[|lines| - 1];
      ValuesOf(lines[..|lines| - 1], name) + if Canonical(h.name) == name then [h.value] else []
  }

  /** The map has, for each canonical name, the values of its lines in order, and no other name. */
  lemma {:induction false} GroupedExactly(lines: seq<Header>, name: Bytes)
    ensures name in Grouped(lines) <==> exists k :: 0 <= k < |lines| && Canonical(lines[k].name) == name
    ensures Values(Grouped(lines), name) == ValuesOf(lines, name)
  {
    hide Canonical;
    if lines != [] {
      var n := |lines| - 1;
      GroupedExactly(lines[..n], name);
      if k :| 0 <= k < |lines| && Canonical(lines[k].name) == name {
        assert k < n ==> lines[..n][k] == lines[k];
      }
    }
  }
}
