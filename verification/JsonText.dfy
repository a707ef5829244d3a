/** JSON trees, the text that print_value writes for them, and the trees that parse_value reads. */
module JsonText {
  import opened Bytes
  import opened JsonInt
  import opened JsonString

  datatype Key = Keyed(name: text) | Unkeyed

  datatype Member = Member(key: Key, value: Json)

  datatype Json =
    | Null
    | False
    | True
    | Int(value: u64, sign: int)
    | Double(sign: int, mantissa: nat, exponent: int)
    | Str(chars: text)
    | Arr(items: seq<Json>)
    | Obj(members: seq<Member>)

  const NULL_TEXT: text := [110, 117, 108, 108]
  const FALSE_TEXT: text := [102, 97, 108, 115, 101]
  const TRUE_TEXT: text := [116, 114, 117, 101]

  // ---------------------------------------------------------------- classes of trees

  ghost predicate NoDoubles(t: Json) {
    match t
    case Double(_, _, _) => false
    case Arr(items) => forall i :: 0 <= i < |items| ==> NoDoubles(items[i])
    case Obj(members) => forall i :: 0 <= i < |members| ==> NoDoubles(members[i].value)
    case _ => true
  }

  /** Strings and keys are C strings, and every member has a key. */
  ghost predicate WellKeyed(t: Json) {
    match t
    case Str(chars) => NulFree(chars)
    case Arr(items) => forall i :: 0 <= i < |items| ==> WellKeyed(items[i])
    case Obj(members) => forall i :: 0 <= i < |members| ==> KeyOk(members[i].key) && WellKeyed(members[i].value)
    case _ => true
  }

  predicate KeyOk(k: Key) {
    k.Keyed? && NulFree(k.name)
  }

  ghost predicate Printable(t: Json) {
    NoDoubles(t) && WellKeyed(t)
  }

  // ---------------------------------------------------------------- printer

  function PrintKey(k: Key): text {
    match k
    case Keyed(name) => PrintString(name)
    case Unkeyed => []
  }

  /** What print_value writes at nesting depth `depth`, formatted or not. */
  function Print(t: Json, depth: nat, fmt: bool): text
    requires NoDoubles(t)
    decreases t
  {
    match t
    case Null => NULL_TEXT
    case False => FALSE_TEXT
    case True => TRUE_TEXT
    case Int(value, sign) => PrintInt(value, sign)
    case Str(chars) => PrintString(chars)
    case Arr(items) => [LBRACKET] + PrintItems(items, depth + 1, fmt) + [RBRACKET]
    case Obj(members) =>
      [LBRACE] + Newline(fmt) + PrintMembers(members, depth + 1, fmt) + Tabs(depth, fmt) + [RBRACE]
  }

  function Newline(fmt: bool): text {
    if fmt then [NEWLINE] else []
  }

  function Tabs(n: nat, fmt: bool): text {
    if fmt then Repeat(TAB, n) else []
  }

  function ItemGap(fmt: bool): text {
    if fmt then [COMMA, SPACE] else [COMMA]
  }

  function PrintItems(items: seq<Json>, depth: nat, fmt: bool): text
    requires forall i :: 0 <= i < |items| ==> NoDoubles(items[i])
    decreases items
  {
    if |items| == 0 then []
    else if |items| == 1 then Print(items[0], depth, fmt)
    else Print(items[0], depth, fmt) + ItemGap(fmt) + PrintItems(items[1..], depth, fmt)
  }

  function PrintMember(m: Member, depth: nat, fmt: bool): text
    requires NoDoubles(m.value)
    decreases m
  {
    Tabs(depth, fmt) + PrintKey(m.key) + [COLON] + Tabs(1, fmt) + Print(m.value, depth, fmt)
  }

  function MemberGap(last: bool, fmt: bool): text {
    (if last then [] else [COMMA]) + Newline(fmt)
  }

  function PrintMembers(members: seq<Member>, depth: nat, fmt: bool): text
    requires forall i :: 0 <= i < |members| ==> NoDoubles(members[i].value)
    decreases members
  {
    if |members| == 0 then []
    else
      PrintMember(members[0], depth, fmt) + MemberGap(|members| == 1, fmt)
      + PrintMembers(members[1..], depth, fmt)
  }

  // ---------------------------------------------------------------- parser

  /** A parser either succeeds and returns the text behind what it read, or fails, or meets a
      malformed escape, on which nothing is said. */
  datatype Parsed<+T> = Ok(value: T, rest: text) | Fail | Undefined
  {
    predicate IsFailure() { !Ok? }
    function PropagateFailure<U>(): Parsed<U>
      requires IsFailure()
    {
      if Fail? then Fail else Undefined
    }
    function Extract(): (T, text)
      requires !IsFailure()
    {
      (value, rest)
    }
  }

  function ParseValue(s: text): (r: Parsed<Json>)
    ensures r.Ok? ==> |r.rest| < |s|
    decreases |s|, 0
  {
    if NULL_TEXT <= s then Ok(Null, s[4..])
    else if FALSE_TEXT <= s then Ok(False, s[5..])
    else if TRUE_TEXT <= s then Ok(True, s[4..])
    else if At(s) == QUOTE then
      var (chars, rest) :- ParseText(s);
      Ok(Str(chars), rest)
    else if At(s) == MINUS || IsDigit(At(s)) then
      var (n, rest) := ParseNumber(s);
      Ok(FromNumber(n), rest)
    else if At(s) == LBRACKET then
      var body := Skip(s[1..]);
      if At(body) == RBRACKET then Ok(Arr([]), body[1..])
      else
        var (items, rest) :- ParseItems(body);
        Ok(Arr(items), rest)
    else if At(s) == LBRACE then
      var body := Skip(s[1..]);
      if At(body) == RBRACE then Ok(Obj([]), body[1..])
      else
        var (members, rest) :- ParseMembers(body);
        Ok(Obj(members), rest)
    else Fail
  }

  function FromNumber(n: Number): Json {
    match n
    case IntNum(value, sign) => Int(value, sign)
    case DblNum(sign, mantissa, exponent) => Double(sign, mantissa, exponent)
  }

  function ParseText(s: text): (r: Parsed<text>)
    ensures r.Ok? ==> |r.rest| < |s|
  {
    match ParseString(s)
    case GotString(value, rest) => Ok(value, rest)
    case NotAString => Fail
    case BadString => Undefined
  }

  /** Array elements from the first one to the closing bracket. */
  function ParseItems(s: text): (r: Parsed<seq<Json>>)
    ensures r.Ok? ==> |r.rest| < |s|
    decreases |s|, 1
  {
    var (first, tail) :- ParseValue(Skip(s));
    var next := Skip(tail);
    if At(next) == COMMA then
      var (others, rest) :- ParseItems(next[1..]);
      Ok([first] + others, rest)
    else if At(next) == RBRACKET then Ok([first], next[1..])
    else Fail
  }

  function ParseMember(s: text): (r: Parsed<Member>)
    ensures r.Ok? ==> |r.rest| < |s|
    decreases |s|, 1
  {
    var (name, tail) :- ParseText(Skip(s));
    var colon := Skip(tail);
    if At(colon) != COLON then Fail
    else
      var (value, rest) :- ParseValue(Skip(colon[1..]));
      Ok(Member(Keyed(name), value), rest)
  }

  /** Object members from the first one to the closing brace. */
  function ParseMembers(s: text): (r: Parsed<seq<Member>>)
    ensures r.Ok? ==> |r.rest| < |s|
    decreases |s|, 2
  {
    var (first, tail) :- ParseMember(s);
    var next := Skip(tail);
    if At(next) == COMMA then
      var (others, rest) :- ParseMembers(next[1..]);
      Ok([first] + others, rest)
    else if At(next) == RBRACE then Ok([first], next[1..])
    else Fail
  }

  /** cJSON_Parse: text behind the value is ignored. */
  function Parse(s: text): Parsed<Json> {
    ParseValue(Skip(s))
  }
}
