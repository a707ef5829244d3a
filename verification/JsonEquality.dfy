/** Printed texts decide equality of trees, and what the parser produces can be printed. */
module JsonEquality {
  import opened Bytes
  import opened JsonInt
  import opened JsonString
  import opened JsonText
  import opened JsonRoundTrip

  /** Trees that agree up to the sign tag of non-negative integers. */
  ghost predicate Agree(a: Json, b: Json)
    decreases a
  {
    match a
    case Int(value, sign) =>
      b.Int? && value == b.value && (value >= TWO_63 ==> (sign == -1 <==> b.sign == -1))
    case Arr(items) =>
      b.Arr? && |items| == |b.items| && forall i :: 0 <= i < |items| ==> Agree(items[i], b.items[i])
    case Obj(members) =>
      && b.Obj? && |members| == |b.members|
      && (forall i :: 0 <= i < |members| ==> members[i].key == b.members[i].key)
      && (forall i :: 0 <= i < |members| ==> Agree(members[i].value, b.members[i].value))
    case _ => a == b
  }

  lemma {:induction false} NormItemsAt(items: seq<Json>, i: nat)
    requires i < |items|
    ensures NormItems(items)[i] == Norm(items[i])
  {
    if i > 0 {
      NormItemsAt(items[1..], i - 1);
    }
  }

  lemma {:induction false} NormMembersAt(members: seq<Member>, i: nat)
    requires i < |members|
    ensures NormMembers(members)[i] == NormMember(members[i])
  {
    if i > 0 {
      NormMembersAt(members[1..], i - 1);
    }
  }

  lemma {:induction false} AgreeIsNorm(a: Json, b: Json)
    ensures Agree(a, b) <==> Norm(a) == Norm(b)
    decreases a
  {
    match a
    case Arr(items) =>
      if b.Arr? && |items| == |b.items| {
        AgreeIsNormItems(items, b.items);
      }
    case Obj(members) =>
      if b.Obj? && |members| == |b.members| {
        AgreeIsNormMembers(members, b.members);
      }
    case _ =>
  }

  lemma {:induction false} AgreeIsNormItems(items: seq<Json>, others: seq<Json>)
    requires |items| == |others|
    ensures (forall i :: 0 <= i < |items| ==> Agree(items[i], others[i])) <==> NormItems(items) == NormItems(others)
    decreases items, 1
  {
    forall i | 0 <= i < |items|
      ensures Agree(items[i], others[i]) <==> NormItems(items)[i] == NormItems(others)[i]
    {
      NormItemsAt(items, i);
      NormItemsAt(others, i);
      AgreeIsNorm(items[i], others[i]);
    }
  }

  lemma {:induction false} AgreeIsNormMembers(members: seq<Member>, others: seq<Member>)
    requires |members| == |others|
    ensures ((forall i :: 0 <= i < |members| ==> members[i].key == others[i].key)
             && (forall i :: 0 <= i < |members| ==> Agree(members[i].value, others[i].value)))
            <==> NormMembers(members) == NormMembers(others)
    decreases members, 1
  {
    forall i | 0 <= i < |members|
      ensures (members[i].key == others[i].key && Agree(members[i].value, others[i].value))
              <==> NormMembers(members)[i] == NormMembers(others)[i]
    {
      NormMembersAt(members, i);
      NormMembersAt(others, i);
      AgreeIsNormMember(members[i], others[i]);
    }
  }

  lemma {:induction false} AgreeIsNormMember(m: Member, other: Member)
    ensures (m.key == other.key && Agree(m.value, other.value)) <==> NormMember(m) == NormMember(other)
    decreases m
  {
    AgreeIsNorm(m.value, other.value);
  }

  /** Normalizing sign tags does not change the text. */
  lemma {:induction false} PrintNorm(t: Json, depth: nat, fmt: bool)
    requires NoDoubles(t)
    ensures NoDoubles(Norm(t)) && Print(Norm(t), depth, fmt) == Print(t, depth, fmt)
    decreases t
  {
    match t
    case Int(value, sign) =>
      PrintIntShape(value, sign);
      PrintIntShape(value, if PrintsMinus(value, sign) then -1 else 1);
    case Arr(items) => PrintNormItems(items, depth + 1, fmt);
    case Obj(members) => PrintNormMembers(members, depth + 1, fmt);
    case _ =>
  }

  lemma {:induction false} PrintNormItems(items: seq<Json>, depth: nat, fmt: bool)
    requires forall i :: 0 <= i < |items| ==> NoDoubles(items[i])
    ensures forall i :: 0 <= i < |items| ==> NoDoubles(NormItems(items)[i])
    ensures PrintItems(NormItems(items), depth, fmt) == PrintItems(items, depth, fmt)
    decreases items
  {
    if |items| > 0 {
      PrintNorm(items[0], depth, fmt);
      PrintNormItems(items[1..], depth, fmt);
      assert NormItems(items)[1..] == NormItems(items[1..]);
    }
  }

  lemma {:induction false} PrintNormMembers(members: seq<Member>, depth: nat, fmt: bool)
    requires forall i :: 0 <= i < |members| ==> NoDoubles(members[i].value)
    ensures forall i :: 0 <= i < |members| ==> NoDoubles(NormMembers(members)[i].value)
    ensures PrintMembers(NormMembers(members), depth, fmt) == PrintMembers(members, depth, fmt)
    decreases members
  {
    if |members| > 0 {
      PrintNormMember(members[0], depth, fmt);
      PrintNormMembers(members[1..], depth, fmt);
      assert NormMembers(members)[1..] == NormMembers(members[1..]);
    }
  }

  lemma {:induction false} PrintNormMember(m: Member, depth: nat, fmt: bool)
    requires NoDoubles(m.value)
    ensures NoDoubles(NormMember(m).value)
    ensures PrintMember(NormMember(m), depth, fmt) == PrintMember(m, depth, fmt)
    decreases m
  {
    PrintNorm(m.value, depth, fmt);
  }

  /** Equal texts are equal trees, up to the sign tag of non-negative integers. */
  lemma PrintDecidesEquality(a: Json, b: Json, depth: nat, fmt: bool)
    requires Printable(a) && Printable(b)
    ensures Print(a, depth, fmt) == Print(b, depth, fmt) <==> Agree(a, b)
  {
    AgreeIsNorm(a, b);
    RoundTrip(a, depth, fmt, []);
    RoundTrip(b, depth, fmt, []);
    PrintNorm(a, depth, fmt);
    PrintNorm(b, depth, fmt);
  }

  /** cJSON_Parse of a printed tree: the result agrees with the tree and prints the same text in
      either format. */
  lemma ReparseAgrees(t: Json, depth: nat, fmt: bool)
    requires Printable(t)
    ensures Parse(Print(t, depth, fmt)) == Ok(Norm(t), [])
    ensures Agree(t, Norm(t)) && Agree(Norm(t), t)
    ensures Printable(Norm(t))
    ensures Print(Norm(t), depth, fmt) == Print(t, depth, fmt)
  {
    var s := Print(t, depth, fmt);
    assert s + [] == s;
    SkipPrinted(t, depth, fmt, []);
    RoundTrip(t, depth, fmt, []);
    PrintNorm(t, depth, fmt);
    NormIdempotent(t);
    AgreeIsNorm(t, Norm(t));
    AgreeIsNorm(Norm(t), t);
    ParsedIsKeyed(s);
  }

  lemma {:induction false} NormIdempotent(t: Json)
    ensures Norm(Norm(t)) == Norm(t)
    decreases t
  {
    match t
    case Arr(items) => NormItemsIdempotent(items);
    case Obj(members) => NormMembersIdempotent(members);
    case _ =>
  }

  lemma {:induction false} NormItemsIdempotent(items: seq<Json>)
    ensures NormItems(NormItems(items)) == NormItems(items)
    decreases items
  {
    if |items| > 0 {
      NormIdempotent(items[0]);
      NormItemsIdempotent(items[1..]);
      assert NormItems(items)[1..] == NormItems(items[1..]);
    }
  }

  lemma {:induction false} NormMembersIdempotent(members: seq<Member>)
    ensures NormMembers(NormMembers(members)) == NormMembers(members)
    decreases members
  {
    if |members| > 0 {
      NormMemberIdempotent(members[0]);
      NormMembersIdempotent(members[1..]);
      assert NormMembers(members)[1..] == NormMembers(members[1..]);
    }
  }

  lemma {:induction false} NormMemberIdempotent(m: Member)
    ensures NormMember(NormMember(m)) == NormMember(m)
    decreases m
  {
    NormIdempotent(m.value);
  }

  // ---------------------------------------------------------------- parsed trees

  lemma ParseTextNulFree(s: text)
    requires ParseText(s).Ok?
    ensures NulFree(ParseText(s).value)
  {
    DecodeNulFree(s[1..]);
  }

  /** Whatever text is parsed, the resulting tree has NUL-free strings and a key on every member. */
  lemma {:induction false} ParsedIsKeyed(s: text)
    requires ParseValue(s).Ok?
    ensures WellKeyed(ParseValue(s).value)
    decreases |s|, 0
  {
    if !(NULL_TEXT <= s || FALSE_TEXT <= s || TRUE_TEXT <= s) {
      if At(s) == QUOTE {
        ParseTextNulFree(s);
      } else if At(s) == LBRACKET {
        var body := Skip(s[1..]);
        if At(body) != RBRACKET {
          ParsedItemsAreKeyed(body);
        }
      } else if At(s) == LBRACE {
        var body := Skip(s[1..]);
        if At(body) != RBRACE {
          ParsedMembersAreKeyed(body);
        }
      }
    }
  }

  lemma {:induction false} ParsedItemsAreKeyed(s: text)
    requires ParseItems(s).Ok?
    ensures forall i :: 0 <= i < |ParseItems(s).value| ==> WellKeyed(ParseItems(s).value[i])
    decreases |s|, 1
  {
    ParsedIsKeyed(Skip(s));
    var next := Skip(ParseValue(Skip(s)).rest);
    if At(next) == COMMA {
      ParsedItemsAreKeyed(next[1..]);
    }
  }

  lemma {:induction false} ParsedMemberIsKeyed(s: text)
    requires ParseMember(s).Ok?
    ensures KeyOk(ParseMember(s).value.key) && WellKeyed(ParseMember(s).value.value)
    decreases |s|, 1
  {
    ParseTextNulFree(Skip(s));
    var colon := Skip(ParseText(Skip(s)).rest);
    ParsedIsKeyed(Skip(colon[1..]));
  }

  lemma {:induction false} ParsedMembersAreKeyed(s: text)
    requires ParseMembers(s).Ok?
    ensures forall i :: 0 <= i < |ParseMembers(s).value| ==> KeyOk(ParseMembers(s).value[i].key)
    ensures forall i :: 0 <= i < |ParseMembers(s).value| ==> WellKeyed(ParseMembers(s).value[i].value)
    decreases |s|, 2
  {
    ParsedMemberIsKeyed(s);
    var next := Skip(ParseMember(s).rest);
    if At(next) == COMMA {
      ParsedMembersAreKeyed(next[1..]);
    }
  }
}
