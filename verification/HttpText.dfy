/** What the request parser makes of a buffer, and the requests it is made for. */
module HttpText {
  import opened Bytes
  import opened Numerals
  import JsonInt

  const LF: byte := 10
  const CR: byte := 13
  const QUESTION: byte := 63

  const GET_TEXT: text := [71, 69, 84]
  const POST_TEXT: text := [80, 79, 83, 84]
  const HEAD_TEXT: text := [72, 69, 65, 68]
  const PUT_TEXT: text := [80, 85, 84]
  const DELETE_TEXT: text := [68, 69, 76, 69, 84, 69]
  // "HTTP/1."
  const HTTP_1: text := [72, 84, 84, 80, 47, 49, 46]
  // "/home/ubuntu/wwwroot"
  const WEB_ROOT: text :=
    [47, 104, 111, 109, 101, 47, 117, 98, 117, 110, 116, 117, 47, 119, 119, 119, 114, 111, 111, 116]
  // "/index.html"
  const INDEX: text := [47, 105, 110, 100, 101, 120, 46, 104, 116, 109, 108]
  // "Content-Length"
  const CONTENT_LENGTH: text := [67, 111, 110, 116, 101, 110, 116, 45, 76, 101, 110, 103, 116, 104]

  /** A string literal as bytes. */
  function Ascii(s: string): text
    requires forall i :: 0 <= i < |s| ==> s[i] < 128 as char
  {
    seq(|s|, i requires 0 <= i < |s| => s[i] as int)
  }

  lemma Spellings()
    ensures GET_TEXT == Ascii("GET") && POST_TEXT == Ascii("POST") && HEAD_TEXT == Ascii("HEAD")
    ensures PUT_TEXT == Ascii("PUT") && DELETE_TEXT == Ascii("DELETE") && HTTP_1 == Ascii("HTTP/1.")
    ensures CONTENT_LENGTH == Ascii("Content-Length")
    ensures WEB_ROOT == Ascii("/home/ubuntu/wwwroot") && INDEX == Ascii("/index.html")
  {
  }

  datatype ParseState = ExpectRequestLine | ExpectHeaders | ExpectBody | GotAll

  datatype Method = INVALID | GET | POST | HEAD | PUT | DELETE

  datatype Version = UnKnown | HTTP1_0 | HTTP1_1

  /** The parsing fields of a request. */
  datatype Parse = Parse(
    state: ParseState,
    method_: Method,
    version: Version,
    path: text,
    query: text,
    headers: map<text, text>,
    cgi: bool)

  const RESET := Parse(ExpectRequestLine, INVALID, UnKnown, [], [], map[], false)

  // ---------------------------------------------------------------- finding

  /** std::find: the position of a byte, or the length. */
  function Find(s: text, b: byte): (r: nat)
    ensures r <= |s|
    ensures b !in s[..r]
    ensures r < |s| ==> s[r] == b
  {
    if |s| == 0 || s[0] == b then 0 else 1 + Find(s[1..], b)
  }

  predicate CrlfAt(s: text, i: nat) {
    i + 1 < |s| && s[i] == CR && s[i + 1] == LF
  }

  /** std::search: the position of the first CRLF, or the length. */
  function FindCrlf(s: text): (r: nat)
    ensures r <= |s|
    ensures forall i :: 0 <= i < r ==> !CrlfAt(s, i)
    ensures r < |s| ==> CrlfAt(s, r)
  {
    if |s| == 0 || CrlfAt(s, 0) then 0
    else
      var r := 1 + FindCrlf(s[1..]);
      assert forall i :: 1 <= i < r ==> (CrlfAt(s, i) <==> CrlfAt(s[1..], i - 1));
      r
  }

  /** The text up to the next CRLF. */
  function Line(s: text): text {
    s[..FindCrlf(s)]
  }

  /** Where the cursor stands after SetCur(crlf + 2): behind the CRLF, or, if there is none, where it
      was, because the position would be out of range. */
  function Behind(s: text): (r: text)
    ensures |r| <= |s|
    ensures FindCrlf(s) < |s| ==> |r| < |s|
  {
    if FindCrlf(s) < |s| then s[FindCrlf(s) + 2..] else s
  }

  // ---------------------------------------------------------------- lines

  function MethodOf(s: text): Method {
    if s == GET_TEXT then GET
    else if s == POST_TEXT then POST
    else if s == HEAD_TEXT then HEAD
    else if s == PUT_TEXT then PUT
    else if s == DELETE_TEXT then DELETE
    else INVALID
  }

  function PathOf(s: text): text {
    WEB_ROOT + (if s == [47] then INDEX else s)
  }

  /** The target of a request line; only the first question mark counts. */
  function SetTarget(p: Parse, target: text): Parse {
    var q := Find(target, QUESTION);
    if q != |target| then p.(path := PathOf(target[..q]), query := target[q + 1..], cgi := true)
    else p.(path := PathOf(target))
  }

  function SetVersion(p: Parse, s: text): (Parse, bool) {
    if |s| == 8 && s[..7] == HTTP_1 && s[7] == 49 then (p.(version := HTTP1_1), true)
    else if |s| == 8 && s[..7] == HTTP_1 && s[7] == 48 then (p.(version := HTTP1_0), true)
    else (p, false)
  }

  /** __parseRequestLine: what has been recognized before a failure stays set. */
  function RequestLine(p: Parse, line: text): (Parse, bool) {
    var space := Find(line, SPACE);
    if space == |line| then (p, false)
    else
      var named := p.(method_ := MethodOf(line[..space]));
      var rest := line[space + 1..];
      if named.method_ == INVALID then (named, false)
      else
        var end := Find(rest, SPACE);
        if end == |rest| then (named, false)
        else SetVersion(SetTarget(named, rest[..end]), rest[end + 1..])
  }

  function TrimLeft(s: text): text {
    if |s| > 0 && s[0] == SPACE then TrimLeft(s[1..]) else s
  }

  function TrimRight(s: text): text {
    if |s| > 0 && s[|s| - 1] == SPACE then TrimRight(s[..|s| - 1]) else s
  }

  /** __addHeader. */
  function AddHeader(p: Parse, line: text): Parse
    requires Find(line, COLON) < |line|
  {
    var colon := Find(line, COLON);
    p.(headers := p.headers[line[..colon] := TrimRight(TrimLeft(line[colon + 1..]))])
  }

  function Header(p: Parse, key: text): text {
    if key in p.headers then p.headers[key] else []
  }

  // ---------------------------------------------------------------- atoi

  predicate IsSpace(b: byte) {
    b == SPACE || 9 <= b <= 13
  }

  function Digits(s: text, acc: nat): nat {
    if |s| > 0 && IsDigit(s[0]) then Digits(s[1..], acc * 10 + (s[0] - ZERO)) else acc
  }

  function Atoi(s: text): int {
    if |s| == 0 then 0
    else if IsSpace(s[0]) then Atoi(s[1..])
    else if s[0] == MINUS then -(Digits(s[1..], 0) as int)
    else if s[0] == PLUS then Digits(s[1..], 0)
    else Digits(s, 0)
  }

  /** White space, an optional sign, digits, and text that starts with no digit. If sign and digits are
      missing, that text starts with neither white space nor a sign. */
  predicate NumeralParts(value: text, blanks: text, sign: text, digits: text, tail: text) {
    && value == blanks + (sign + (digits + tail))
    && (forall i :: 0 <= i < |blanks| ==> blanks[i] == 32 || 9 <= blanks[i] <= 13)
    && (sign == [] || sign == [43] || sign == [45])
    && AllDigits(digits) && NoDigitAhead(tail)
    && (sign == [] && digits == [] && |tail| > 0 ==> tail[0] != 32 && !(9 <= tail[0] <= 13) && tail[0] !in [43, 45])
  }

  function SignedValue(sign: text, digits: text): int
    requires AllDigits(digits)
  {
    if sign == [45] then -(Decimal(digits) as int) else Decimal(digits)
  }

  /** `value` starts with the decimal numeral of `n`. */
  ghost predicate Numeral(value: text, n: int) {
    exists blanks, sign, digits, tail ::
      NumeralParts(value, blanks, sign, digits, tail) && n == SignedValue(sign, digits)
  }

  lemma {:induction false} DigitsRead(before: text, digits: text, tail: text)
    requires AllDigits(before) && AllDigits(digits) && NoDigitAhead(tail)
    ensures AllDigits(before + digits)
    ensures Digits(digits + tail, Decimal(before)) == Decimal(before + digits)
    decreases |digits|
  {
    if |digits| == 0 {
      assert digits + tail == tail && before + digits == before;
    } else {
      DecimalSnoc(before, digits[0]);
      assert (digits + tail)[1..] == digits[1..] + tail;
      assert before + [digits[0]] + digits[1..] == before + digits;
      DigitsRead(before + [digits[0]], digits[1..], tail);
    }
  }

  lemma {:induction false} PartsRead(value: text, blanks: text, sign: text, digits: text, tail: text)
    requires NumeralParts(value, blanks, sign, digits, tail)
    ensures Atoi(value) == SignedValue(sign, digits)
    decreases |blanks|
  {
    if |blanks| > 0 {
      assert value[1..] == blanks[1..] + (sign + (digits + tail));
      PartsRead(value[1..], blanks[1..], sign, digits, tail);
    } else {
      assert value == sign + (digits + tail);
      DigitsRead([], digits, tail);
      assert [] + digits == digits;
      if |sign| > 0 {
        assert value[1..] == digits + tail;
      } else {
        assert value == digits + tail;
      }
    }
  }

  lemma {:induction false} PartsExist(value: text) returns (blanks: text, sign: text, digits: text, tail: text)
    ensures NumeralParts(value, blanks, sign, digits, tail)
  {
    if |value| > 0 && (value[0] == 32 || 9 <= value[0] <= 13) {
      blanks, sign, digits, tail := PartsExist(value[1..]);
      assert value == [value[0]] + blanks + (sign + (digits + tail));
      blanks := [value[0]] + blanks;
    } else if |value| > 0 && value[0] in [43, 45] {
      digits, tail := DigitRun(value[1..]);
      blanks, sign := [], [value[0]];
    } else {
      digits, tail := DigitRun(value);
      blanks, sign := [], [];
      assert value == blanks + (sign + (digits + tail));
    }
  }

  /** atoi: its result is the number whose decimal numeral the text starts with, and no other one. */
  lemma AtoiIsNumeral(value: text, n: int)
    ensures Atoi(value) == n <==> Numeral(value, n)
  {
    if Numeral(value, n) {
      var blanks, sign, digits, tail :|
        NumeralParts(value, blanks, sign, digits, tail) && n == SignedValue(sign, digits);
      PartsRead(value, blanks, sign, digits, tail);
    }
    if Atoi(value) == n {
      var blanks, sign, digits, tail := PartsExist(value);
      PartsRead(value, blanks, sign, digits, tail);
    }
  }

  /** The usual numeral of a number, behind any white space, is one. */
  lemma DecIsNumeral(n: int, blanks: text)
    requires forall i :: 0 <= i < |blanks| ==> blanks[i] == 32 || 9 <= blanks[i] <= 13
    ensures Numeral(blanks + JsonInt.DecSigned(n), n)
    ensures Atoi(blanks + JsonInt.DecSigned(n)) == n
  {
    var m: nat := if n < 0 then -n else n;
    var sign: text := if n < 0 then [45] else [];
    DecimalOfDec(m);
    SignedNumeral(blanks, sign, JsonInt.Dec(m));
    assert JsonInt.DecSigned(n) == sign + JsonInt.Dec(m);
    AtoiIsNumeral(blanks + JsonInt.DecSigned(n), n);
  }

  lemma SignedNumeral(blanks: text, sign: text, digits: text)
    requires forall i :: 0 <= i < |blanks| ==> blanks[i] == 32 || 9 <= blanks[i] <= 13
    requires (sign == [] || sign == [45]) && |digits| > 0 && AllDigits(digits)
    ensures Numeral(blanks + (sign + digits), SignedValue(sign, digits))
  {
    assert digits + [] == digits;
    assert NumeralParts(blanks + (sign + digits), blanks, sign, digits, []);
  }

  // ---------------------------------------------------------------- the loop

  /** How parseRequest ends: with a result, never, or by reading a body beyond the buffer. */
  datatype Outcome = Done(p: Parse, ok: bool) | Stuck | Outside

  function Rank(s: ParseState): nat {
    match s
    case ExpectRequestLine => 3
    case ExpectHeaders => 2
    case ExpectBody => 1
    case GotAll => 0
  }

  /** The whole loop, from parsing fields `p` and with `s` ahead of the cursor. */
  function Outcomes(p: Parse, s: text): Outcome
    decreases Rank(p.state), |s|
  {
    match p.state
    case ExpectRequestLine =>
      var (q, ok) := RequestLine(p, Line(s));
      if ok then Outcomes(q.(state := ExpectHeaders), Behind(s)) else Done(q, false)
    case ExpectHeaders =>
      if Find(Line(s), COLON) < |Line(s)| then
        if FindCrlf(s) < |s| then Outcomes(AddHeader(p, Line(s)), Behind(s)) else Stuck
      else if p.method_ == POST then Outcomes(p.(state := ExpectBody, cgi := true), Behind(s))
      else Done(p.(state := GotAll), true)
    case ExpectBody =>
      var len := Atoi(Header(p, CONTENT_LENGTH));
      if 0 <= len <= |s| then Done(p.(query := s[..len], state := GotAll), true) else Outside
    case GotAll => Stuck
  }

  // ---------------------------------------------------------------- when the loop does not end

  /** The pieces between CRLFs, the one behind the last CRLF included. */
  function Pieces(s: text): seq<text>
    decreases |s|
  {
    if FindCrlf(s) == |s| then [s] else [Line(s)] + Pieces(Behind(s))
  }

  predicate HaveColons(pieces: seq<text>) {
    forall i :: 0 <= i < |pieces| ==> COLON in pieces[i]
  }

  predicate EveryPieceHasColon(s: text) {
    HaveColons(Pieces(s))
  }

  lemma HaveColonsCons(piece: text, rest: seq<text>)
    ensures HaveColons([piece] + rest) <==> COLON in piece && HaveColons(rest)
  {
    var all := [piece] + rest;
    assert all[0] == piece;
    assert forall i :: 0 <= i < |rest| ==> all[i + 1] == rest[i];
  }

  lemma EveryPieceStep(s: text)
    requires FindCrlf(s) < |s|
    ensures EveryPieceHasColon(s) <==> COLON in Line(s) && EveryPieceHasColon(Behind(s))
  {
    HaveColonsCons(Line(s), Pieces(Behind(s)));
  }

  lemma LastPiece(s: text)
    requires FindCrlf(s) == |s|
    ensures EveryPieceHasColon(s) <==> COLON in Line(s)
  {
    assert Pieces(s) == [s] && Pieces(s)[0] == s && Line(s) == s;
  }

  lemma {:induction false} HeadersStuck(p: Parse, s: text)
    requires p.state == ExpectHeaders
    ensures Outcomes(p, s).Stuck? <==> EveryPieceHasColon(s)
    decreases |s|
  {
    assert COLON in Line(s) <==> Find(Line(s), COLON) < |Line(s)|;
    if FindCrlf(s) == |s| {
      LastPiece(s);
    } else {
      EveryPieceStep(s);
      if Find(Line(s), COLON) < |Line(s)| {
        HeadersStuck(AddHeader(p, Line(s)), Behind(s));
      }
    }
  }

  /** Exactly when parseRequest does not return: it is entered with a finished request, or it reaches
      header text in which every piece between CRLFs has a colon, so that no line ends the headers
      and the unterminated last piece is read again and again. */
  lemma StuckIff(p: Parse, s: text)
    ensures Outcomes(p, s).Stuck? <==>
      || p.state == GotAll
      || (p.state == ExpectHeaders && EveryPieceHasColon(s))
      || (p.state == ExpectRequestLine && RequestLine(p, Line(s)).1 && EveryPieceHasColon(Behind(s)))
  {
    match p.state
    case ExpectRequestLine =>
      HeadersStuck(RequestLine(p, Line(s)).0.(state := ExpectHeaders), Behind(s));
    case ExpectHeaders => HeadersStuck(p, s);
    case _ =>
  }

  // ---------------------------------------------------------------- when it reads beyond the buffer

  /** The header lines, up to the first line without a colon. */
  function HeaderLines(s: text): (lines: seq<text>)
    ensures forall i :: 0 <= i < |lines| ==> COLON in lines[i]
    decreases |s|
  {
    if COLON in Line(s) && FindCrlf(s) < |s| then [Line(s)] + HeaderLines(Behind(s)) else []
  }

  /** The text behind that line. */
  function BodyText(s: text): text
    decreases |s|
  {
    if COLON in Line(s) && FindCrlf(s) < |s| then BodyText(Behind(s)) else Behind(s)
  }

  function AddAll(p: Parse, lines: seq<text>): Parse
    requires forall i :: 0 <= i < |lines| ==> COLON in lines[i]
    decreases |lines|
  {
    if |lines| == 0 then p else AddAll(AddHeader(p, lines[0]), lines[1..])
  }

  /** The announced body is in the buffer. */
  predicate BodyFits(p: Parse, s: text) {
    0 <= Atoi(Header(p, CONTENT_LENGTH)) <= |s|
  }

  /** The headers `s` announce a body that is not in the buffer. */
  predicate WrongBody(p: Parse, s: text) {
    p.method_ == POST && !EveryPieceHasColon(s) && !BodyFits(AddAll(p, HeaderLines(s)), BodyText(s))
  }

  lemma {:induction false} HeadersOutside(p: Parse, s: text)
    requires p.state == ExpectHeaders
    ensures Outcomes(p, s).Outside? <==> WrongBody(p, s)
    decreases |s|
  {
    assert COLON in Line(s) <==> Find(Line(s), COLON) < |Line(s)|;
    if FindCrlf(s) == |s| {
      LastPiece(s);
    } else {
      EveryPieceStep(s);
      if COLON in Line(s) {
        HeadersOutside(AddHeader(p, Line(s)), Behind(s));
      }
    }
  }

  /** Exactly when parseRequest reads a body beyond the buffer: the announced length is negative or larger
      than what is left of the buffer, in a body that is expected or behind the headers of a POST. */
  lemma OutsideIff(p: Parse, s: text)
    ensures Outcomes(p, s).Outside? <==>
      || (p.state == ExpectBody && !BodyFits(p, s))
      || (p.state == ExpectHeaders && WrongBody(p, s))
      || (p.state == ExpectRequestLine && RequestLine(p, Line(s)).1
          && WrongBody(RequestLine(p, Line(s)).0.(state := ExpectHeaders), Behind(s)))
  {
    match p.state
    case ExpectRequestLine =>
      HeadersOutside(RequestLine(p, Line(s)).0.(state := ExpectHeaders), Behind(s));
    case ExpectHeaders => HeadersOutside(p, s);
    case _ =>
  }

  /** One iteration of the loop: the new fields, the text ahead, and whether another one follows. */
  function Round(p: Parse, s: text): (Parse, text, bool) {
    match p.state
    case ExpectRequestLine =>
      var (q, ok) := RequestLine(p, Line(s));
      if ok then (q.(state := ExpectHeaders), Behind(s), true) else (q, s, false)
    case ExpectHeaders =>
      if Find(Line(s), COLON) < |Line(s)| then (AddHeader(p, Line(s)), Behind(s), true)
      else if p.method_ == POST then (p.(state := ExpectBody, cgi := true), Behind(s), true)
      else (p.(state := GotAll), Behind(s), false)
    case ExpectBody => (p.(state := GotAll), s, false)
    case GotAll => (p, s, true)
  }

  /** Whether the loop is still running after `n` iterations. */
  predicate Running(p: Parse, s: text, n: nat)
    decreases n
  {
    n == 0 || (var (q, t, more) := Round(p, s); more && Running(q, t, n - 1))
  }

  lemma {:induction false} StuckNeverEnds(p: Parse, s: text, n: nat)
    requires Outcomes(p, s).Stuck?
    ensures Running(p, s, n)
    decreases n
  {
    if n > 0 {
      var (q, t, more) := Round(p, s);
      if p.state == ExpectHeaders && FindCrlf(s) == |s| {
        StuckAgain(p, s);
      }
      StuckNeverEnds(q, t, n - 1);
    }
  }

  lemma StuckAgain(p: Parse, s: text)
    requires p.state == ExpectHeaders && FindCrlf(s) == |s| && Outcomes(p, s).Stuck?
    ensures Outcomes(Round(p, s).0, s).Stuck? && Round(p, s).1 == s && Round(p, s).2
  {
  }

  lemma {:induction false} OthersEnd(p: Parse, s: text)
    requires !Outcomes(p, s).Stuck?
    ensures exists n: nat :: !Running(p, s, n)
    decreases Rank(p.state), |s|
  {
    var (q, t, more) := Round(p, s);
    if more {
      OthersEnd(q, t);
      var n: nat :| !Running(q, t, n);
      assert !Running(p, s, n + 1);
    } else {
      assert !Running(p, s, 1);
    }
  }

  // ---------------------------------------------------------------- rendering

  /** A header as it is sent, with blanks around its value. */
  datatype Field = Field(name: text, value: text, before: nat, after: nat)

  datatype Query = NoQuery | Query(chars: text)

  datatype Request =
    Request(method_: Method, path: text, query: Query, version: Version, fields: seq<Field>, body: text)

  predicate NoBreaks(s: text) {
    CR !in s && LF !in s
  }

  predicate Trimmed(s: text) {
    |s| > 0 ==> s[0] != SPACE && s[|s| - 1] != SPACE
  }

  predicate FieldOk(f: Field) {
    NoBreaks(f.name) && COLON !in f.name && NoBreaks(f.value) && Trimmed(f.value)
  }

  /** The last value sent for a name, or nothing. */
  function Fields(fields: seq<Field>, headers: map<text, text>): map<text, text> {
    if |fields| == 0 then headers else Fields(fields[1..], headers[fields[0].name := fields[0].value])
  }

  /** A request whose parts can be told apart in its text. */
  predicate Sendable(r: Request) {
    && r.method_ != INVALID && r.version != UnKnown
    && NoBreaks(r.path) && SPACE !in r.path && QUESTION !in r.path
    && (r.query.Query? ==> NoBreaks(r.query.chars) && SPACE !in r.query.chars)
    && (forall i :: 0 <= i < |r.fields| ==> FieldOk(r.fields[i]))
  }

  /** The value sent last for the length of the body, or nothing. */
  function LengthValue(r: Request): text {
    var headers := Fields(r.fields, map[]);
    if CONTENT_LENGTH in headers then headers[CONTENT_LENGTH] else []
  }

  /** The request announces a body of `n` bytes, in decimal. */
  ghost predicate Announces(r: Request, n: int) {
    Numeral(LengthValue(r), n)
  }

  /** A complete request; the body of a POST has the announced length. */
  ghost predicate Complete(r: Request) {
    Sendable(r) && (r.method_ == POST ==> Announces(r, |r.body|))
  }

  function MethodText(m: Method): text
    requires m != INVALID
  {
    match m
    case GET => GET_TEXT
    case POST => POST_TEXT
    case HEAD => HEAD_TEXT
    case PUT => PUT_TEXT
    case DELETE => DELETE_TEXT
  }

  function VersionText(v: Version): text
    requires v != UnKnown
  {
    HTTP_1 + [if v == HTTP1_1 then 49 else 48]
  }

  function FieldText(f: Field): text {
    f.name + [COLON] + (Repeat(SPACE, f.before) + f.value + Repeat(SPACE, f.after))
  }

  function Crlf(line: text, rest: text): text {
    line + [CR, LF] + rest
  }

  function RenderFields(fields: seq<Field>, rest: text): text {
    if |fields| == 0 then Crlf([], rest) else Crlf(FieldText(fields[0]), RenderFields(fields[1..], rest))
  }

  function Target(r: Request): text {
    r.path + (if r.query.Query? then [QUESTION] + r.query.chars else [])
  }

  function StartLine(r: Request): text
    requires Sendable(r)
  {
    MethodText(r.method_) + [SPACE] + (Target(r) + [SPACE] + VersionText(r.version))
  }

  /** The request line, the headers, an empty line, the body, and whatever follows it. */
  function Render(r: Request, trailing: text): text
    requires Sendable(r)
  {
    Crlf(StartLine(r), RenderFields(r.fields, r.body + trailing))
  }

  /** What the parser is to find in a rendered request: the query is the text behind the question
      mark, or the body of a POST, and in both cases the request is one for a CGI program. */
  function Expected(r: Request): Parse {
    Parse(
      GotAll,
      r.method_,
      r.version,
      WEB_ROOT + (if r.path == [47] then INDEX else r.path),
      if r.method_ == POST then r.body else if r.query.Query? then r.query.chars else [],
      Fields(r.fields, map[]),
      r.method_ == POST || r.query.Query?)
  }

  /** Of several fields with one name, the last one counts. */
  lemma {:induction false} LastWins(fields: seq<Field>, headers: map<text, text>, i: nat)
    requires i < |fields| && (forall j :: i < j < |fields| ==> fields[j].name != fields[i].name)
    ensures fields[i].name in Fields(fields, headers) && Fields(fields, headers)[fields[i].name] == fields[i].value
    decreases |fields|
  {
    var next := headers[fields[0].name := fields[0].value];
    if i == 0 {
      OthersKeep(fields[1..], next, fields[0].name);
    } else {
      LastWins(fields[1..], next, i - 1);
    }
  }

  lemma {:induction false} OthersKeep(fields: seq<Field>, headers: map<text, text>, name: text)
    requires name in headers && (forall j :: 0 <= j < |fields| ==> fields[j].name != name)
    ensures name in Fields(fields, headers) && Fields(fields, headers)[name] == headers[name]
    decreases |fields|
  {
    if |fields| > 0 {
      OthersKeep(fields[1..], headers[fields[0].name := fields[0].value], name);
    }
  }

  // ---------------------------------------------------------------- parsing what was rendered

  /** A line without breaks is cut off at the CRLF behind it. */
  lemma {:induction false} CutLine(line: text, rest: text)
    requires CR !in line
    ensures FindCrlf(Crlf(line, rest)) == |line|
    ensures Line(Crlf(line, rest)) == line && Behind(Crlf(line, rest)) == rest
  {
    var s := Crlf(line, rest);
    if |line| > 0 {
      assert s[1..] == Crlf(line[1..], rest);
      CutLine(line[1..], rest);
    }
  }

  lemma {:induction false} FindIn(a: text, b: byte, rest: text)
    requires b !in a
    ensures Find(a + [b] + rest, b) == |a|
    ensures (a + [b] + rest)[..|a|] == a && (a + [b] + rest)[|a| + 1..] == rest
  {
    if |a| > 0 {
      assert (a + [b] + rest)[1..] == a[1..] + [b] + rest;
      FindIn(a[1..], b, rest);
    }
  }

  lemma {:induction false} FindNone(a: text, b: byte)
    requires b !in a
    ensures Find(a, b) == |a|
  {
  }

  lemma MethodRead(m: Method)
    requires m != INVALID
    ensures MethodOf(MethodText(m)) == m && SPACE !in MethodText(m) && NoBreaks(MethodText(m))
  {
  }

  lemma VersionRead(p: Parse, v: Version)
    requires v != UnKnown
    ensures SetVersion(p, VersionText(v)) == (p.(version := v), true) && NoBreaks(VersionText(v))
  {
  }

  /** What a request line leaves in the fields. */
  function Started(p: Parse, r: Request): Parse {
    var q := p.(method_ := r.method_, version := r.version, path := PathOf(r.path));
    if r.query.Query? then q.(query := r.query.chars, cgi := true) else q
  }

  lemma TargetRead(p: Parse, r: Request)
    requires QUESTION !in r.path
    ensures SetTarget(p, Target(r)) ==
            if r.query.Query? then p.(path := PathOf(r.path), query := r.query.chars, cgi := true)
            else p.(path := PathOf(r.path))
  {
    if r.query.Query? {
      assert Target(r) == r.path + [QUESTION] + r.query.chars;
      FindIn(r.path, QUESTION, r.query.chars);
    } else {
      assert Target(r) == r.path;
      FindNone(r.path, QUESTION);
    }
  }

  /** A method, a target without blanks, and a version, with one blank between them. */
  ghost predicate IsRequestLine(line: text) {
    exists m: Method, target: text, v: Version :: LineParts(line, m, target, v)
  }

  predicate LineParts(line: text, m: Method, target: text, v: Version) {
    && m != INVALID && v != UnKnown && SPACE !in target
    && line == MethodText(m) + [SPACE] + (target + [SPACE] + VersionText(v))
  }

  lemma PartsAccepted(p: Parse, line: text, m: Method, target: text, v: Version)
    requires LineParts(line, m, target, v)
    ensures RequestLine(p, line) == (SetTarget(p.(method_ := m), target).(version := v), true)
  {
    MethodRead(m);
    FindIn(MethodText(m), SPACE, target + [SPACE] + VersionText(v));
    FindIn(target, SPACE, VersionText(v));
    VersionRead(SetTarget(p.(method_ := m), target), v);
  }

  lemma StartLineRead(p: Parse, r: Request)
    requires Sendable(r)
    ensures RequestLine(p, StartLine(r)) == (Started(p, r), true)
    ensures CR !in StartLine(r)
  {
    MethodRead(r.method_);
    VersionRead(RESET, r.version);
    assert LineParts(StartLine(r), r.method_, Target(r), r.version);
    PartsAccepted(p, StartLine(r), r.method_, Target(r), r.version);
    TargetRead(p.(method_ := r.method_), r);
  }

  lemma MethodNamed(s: text)
    requires MethodOf(s) != INVALID
    ensures s == MethodText(MethodOf(s))
  {
  }

  lemma VersionNamed(p: Parse, s: text) returns (v: Version)
    requires SetVersion(p, s).1
    ensures v != UnKnown && s == VersionText(v)
  {
    v := if s[7] == 49 then HTTP1_1 else HTTP1_0;
    assert s == s[..7] + [s[7]];
  }

  lemma CutAt(s: text, i: nat)
    requires i < |s|
    ensures s == s[..i] + [s[i]] + s[i + 1..]
  {
  }

  lemma AcceptedParts(p: Parse, line: text) returns (m: Method, target: text, v: Version)
    requires RequestLine(p, line).1
    ensures LineParts(line, m, target, v)
  {
    var space := Find(line, SPACE);
    var rest := line[space + 1..];
    var end := Find(rest, SPACE);
    m, target := MethodOf(line[..space]), rest[..end];
    CutAt(line, space);
    CutAt(rest, end);
    MethodNamed(line[..space]);
    v := VersionNamed(SetTarget(p.(method_ := m), target), rest[end + 1..]);
  }

  /** The first line of a request is accepted exactly if it is a request line; otherwise parseRequest returns
      false at once. */
  lemma AcceptedIffRequestLine(p: Parse, s: text)
    requires p.state == ExpectRequestLine
    ensures RequestLine(p, Line(s)).1 <==> IsRequestLine(Line(s))
    ensures !IsRequestLine(Line(s)) <==> exists q :: Outcomes(p, s) == Done(q, false)
  {
    if IsRequestLine(Line(s)) {
      var m, target, v :| LineParts(Line(s), m, target, v);
      PartsAccepted(p, Line(s), m, target, v);
      HeadersSucceed(RequestLine(p, Line(s)).0.(state := ExpectHeaders), Behind(s));
    } else {
      if RequestLine(p, Line(s)).1 {
        var m, target, v := AcceptedParts(p, Line(s));
      }
      assert Outcomes(p, s) == Done(RequestLine(p, Line(s)).0, false);
    }
  }

  /** Behind the first line nothing fails. */
  lemma {:induction false} HeadersSucceed(p: Parse, s: text)
    requires p.state == ExpectHeaders
    ensures Outcomes(p, s).Done? ==> Outcomes(p, s).ok
    decreases |s|
  {
    if Find(Line(s), COLON) < |Line(s)| && FindCrlf(s) < |s| {
      HeadersSucceed(AddHeader(p, Line(s)), Behind(s));
    }
  }

  lemma {:induction false} TrimLeftBlanks(n: nat, s: text)
    requires |s| > 0 ==> s[0] != SPACE
    ensures TrimLeft(Repeat(SPACE, n) + s) == s
  {
    if n > 0 {
      assert (Repeat(SPACE, n) + s)[1..] == Repeat(SPACE, n - 1) + s;
      TrimLeftBlanks(n - 1, s);
    } else {
      assert Repeat(SPACE, n) + s == s;
    }
  }

  lemma {:induction false} TrimRightBlanks(n: nat, s: text)
    requires |s| > 0 ==> s[|s| - 1] != SPACE
    ensures TrimRight(s + Repeat(SPACE, n)) == s
  {
    var t := s + Repeat(SPACE, n);
    if n > 0 {
      assert t[..|t| - 1] == s + Repeat(SPACE, n - 1);
      TrimRightBlanks(n - 1, s);
    } else {
      assert t == s;
    }
  }

  /** Blanks around a value disappear, also when there is nothing between them. */
  lemma TrimBlanks(before: nat, value: text, after: nat)
    requires Trimmed(value)
    ensures TrimRight(TrimLeft(Repeat(SPACE, before) + value + Repeat(SPACE, after))) == value
  {
    var tail := value + Repeat(SPACE, after);
    assert Repeat(SPACE, before) + value + Repeat(SPACE, after) == Repeat(SPACE, before) + tail;
    if |value| > 0 {
      TrimLeftBlanks(before, tail);
      TrimRightBlanks(after, value);
    } else {
      assert Repeat(SPACE, before) + tail == Repeat(SPACE, before + after) + [];
      TrimLeftBlanks(before + after, []);
    }
  }

  lemma FieldRead(p: Parse, f: Field)
    requires FieldOk(f)
    ensures CR !in FieldText(f) && Find(FieldText(f), COLON) < |FieldText(f)|
    ensures AddHeader(p, FieldText(f)) == p.(headers := p.headers[f.name := f.value])
  {
    FindIn(f.name, COLON, Repeat(SPACE, f.before) + f.value + Repeat(SPACE, f.after));
    TrimBlanks(f.before, f.value, f.after);
  }

  lemma HeaderStep(p: Parse, s: text)
    requires p.state == ExpectHeaders && FindCrlf(s) < |s| && Find(Line(s), COLON) < |Line(s)|
    ensures Outcomes(p, s) == Outcomes(AddHeader(p, Line(s)), Behind(s))
  {
  }

  /** The header loop reads the fields one by one and stops at the empty line. */
  lemma {:induction false} FieldsRead(p: Parse, fields: seq<Field>, rest: text)
    requires p.state == ExpectHeaders && (forall i :: 0 <= i < |fields| ==> FieldOk(fields[i]))
    ensures Outcomes(p, RenderFields(fields, rest)) ==
            Outcomes(p.(headers := Fields(fields, p.headers)), Crlf([], rest))
    decreases |fields|
  {
    if |fields| == 0 {
      assert Fields(fields, p.headers) == p.headers;
    } else {
      var q := p.(headers := p.headers[fields[0].name := fields[0].value]);
      var others := RenderFields(fields[1..], rest);
      FieldRead(p, fields[0]);
      CutLine(FieldText(fields[0]), others);
      HeaderStep(p, Crlf(FieldText(fields[0]), others));
      FieldsRead(q, fields[1..], rest);
      assert Fields(fields, p.headers) == Fields(fields[1..], q.headers);
    }
  }

  /** The empty line ends the headers; the body of a POST is taken as the query. */
  lemma EndRead(p: Parse, body: text, trailing: text)
    requires p.state == ExpectHeaders
    requires p.method_ == POST ==> Atoi(Header(p, CONTENT_LENGTH)) == |body|
    ensures Outcomes(p, Crlf([], body + trailing)) ==
            Done(if p.method_ == POST then p.(state := GotAll, query := body, cgi := true)
                 else p.(state := GotAll), true)
  {
  }

  /** Parsing inverts rendering: from a reset parser, a complete request leads to GotAll with its
      method, version, path, query or body, and for each header name the value sent last. */
  lemma ParsingInvertsRendering(r: Request, trailing: text)
    requires Complete(r)
    ensures Outcomes(RESET, Render(r, trailing)) == Done(Expected(r), true)
  {
    HeadRead(r, trailing);
    AtoiIsNumeral(LengthValue(r), |r.body|);
    EndRead(AtEnd(r), r.body, trailing);
  }

  /** A POST whose header for the length is the usual numeral of the length of its body: the body is taken, to
      its last byte. */
  lemma PostBodyIsTaken(r: Request, trailing: text, blanks: text)
    requires Sendable(r) && r.method_ == POST
    requires forall i :: 0 <= i < |blanks| ==> blanks[i] == 32 || 9 <= blanks[i] <= 13
    requires LengthValue(r) == blanks + JsonInt.DecSigned(|r.body|)
    ensures Outcomes(RESET, Render(r, trailing)) == Done(Expected(r), true) && Expected(r).query == r.body
  {
    DecIsNumeral(|r.body|, blanks);
    ParsingInvertsRendering(r, trailing);
  }

  /** The parsing fields when all headers have been read. */
  function AtEnd(r: Request): Parse {
    Started(RESET, r).(state := ExpectHeaders, headers := Fields(r.fields, map[]))
  }

  lemma HeadRead(r: Request, trailing: text)
    requires Sendable(r)
    ensures Outcomes(RESET, Render(r, trailing)) == Outcomes(AtEnd(r), Crlf([], r.body + trailing))
  {
    var body := RenderFields(r.fields, r.body + trailing);
    StartLineRead(RESET, r);
    CutLine(StartLine(r), body);
    FieldsRead(Started(RESET, r).(state := ExpectHeaders), r.fields, r.body + trailing);
  }

  /** A POST whose announced length is negative, or larger than what follows the headers. */
  lemma WrongLengthIsOutside(r: Request, trailing: text, n: int)
    requires Sendable(r) && r.method_ == POST && Announces(r, n) && !(0 <= n <= |r.body + trailing|)
    ensures Outcomes(RESET, Render(r, trailing)).Outside?
  {
    HeadRead(r, trailing);
    AtoiIsNumeral(LengthValue(r), n);
    EndOutside(AtEnd(r), r.body + trailing);
  }

  lemma EndOutside(p: Parse, rest: text)
    requires p.state == ExpectHeaders && p.method_ == POST && !BodyFits(p, rest)
    ensures Outcomes(p, Crlf([], rest)).Outside?
  {
    CutLine([], rest);
  }

  /** A POST to the root that announces nine bytes and sends two. */
  const SHORT_POST := Request(POST, [47], NoQuery, HTTP1_1, [NINE_BYTES], [97, 98])
  const NINE_BYTES := Field(CONTENT_LENGTH, [57], 1, 0)

  lemma ShortBodyIsOutside()
    ensures Sendable(SHORT_POST) && Outcomes(RESET, Render(SHORT_POST, [])).Outside?
  {
    NineIsRead(SHORT_POST, NINE_BYTES);
    NineIsSendable(NINE_BYTES);
    WrongLengthIsOutside(SHORT_POST, [], 9);
  }

  lemma NineIsSendable(f: Field)
    requires f.name == CONTENT_LENGTH && f.value == [57]
    ensures FieldOk(f)
  {
  }

  lemma NineIsRead(r: Request, f: Field)
    requires r.fields == [f] && f.name == CONTENT_LENGTH && f.value == [57]
    ensures Announces(r, 9)
  {
    assert Fields([f], map[]) == Fields([], map[CONTENT_LENGTH := [57]]);
    DecIsNumeral(9, []);
    assert [] + JsonInt.DecSigned(9) == [57];
  }

  // ---------------------------------------------------------------- a buffer that ends too early

  /** A request whose buffer ends inside its first header line, behind the colon, is never finished. */
  lemma UnterminatedIsStuck(r: Request, piece: text)
    requires Sendable(r) && CR !in piece && COLON in piece
    ensures Outcomes(RESET, Crlf(StartLine(r), piece)).Stuck?
  {
    var s := Crlf(StartLine(r), piece);
    StartLineRead(RESET, r);
    CutLine(StartLine(r), piece);
    assert FindCrlf(piece) == |piece|;
    assert Pieces(piece) == [piece];
    StuckIff(RESET, s);
  }

  // "GET / HTTP/1.1"
  const GET_ROOT: text := GET_TEXT + [SPACE] + ([47] + [SPACE] + (HTTP_1 + [49]))
  // "H:x"
  const HALF_HEADER: text := [72, COLON, 120]

  lemma CutShortIsStuck()
    ensures Outcomes(RESET, GET_ROOT + [CR, LF] + HALF_HEADER).Stuck?
  {
    var r := Request(GET, [47], NoQuery, HTTP1_1, [], []);
    assert HALF_HEADER[1] == COLON;
    UnterminatedIsStuck(r, HALF_HEADER);
    assert Target(r) == [47];
  }
}
