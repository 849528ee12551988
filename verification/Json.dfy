/** JSON at token level: printing without whitespace, and a parser that reads one value and leaves the rest. */
module Json {

  datatype Json =
    | JNull
    | JStr(text: string)
    | JNum(n: int)
    | JArr(items: seq<Json>)
    | JObj(members: seq<Member>)

  datatype Member = Member(key: string, value: Json)

  datatype Token = TNull | TStr(text: string) | TNum(n: int) | LBracket | RBracket | LBrace | RBrace | Comma | Colon

  function Separator(first: bool): seq<Token> { if first then [] else [Comma] }

  function Print(j: Json): seq<Token>
    decreases j, 1
  {
    match j
    case JNull => [TNull]
    case JStr(s) => [TStr(s)]
    case JNum(n) => [TNum(n)]
    case JArr(items) => [LBracket] + PrintItems(items, true)
    case JObj(members) => [LBrace] + PrintMembers(members, true)
  }

  /** The elements that remain, with a comma before each but the first, and the closing bracket. */
  function PrintItems(items: seq<Json>, first: bool): seq<Token>
    decreases items, 0
  {
    if items == [] then [RBracket]
    else Separator(first) + (Print(items[0]) + PrintItems(items[1..], false))
  }

  function PrintMembers(members: seq<Member>, first: bool): seq<Token>
    decreases members, 0
  {
    if members == [] then [RBrace]
    else
      Separator(first)
      + ([TStr(members[0].key), Colon] + (Print(members[0].value) + PrintMembers(members[1..], false)))
  }

  datatype Parsed<T> = Fail | Got(value: T, rest: seq<Token>)

  function Parse(ts: seq<Token>): (p: Parsed<Json>)
    ensures p.Got? ==> |p.rest| < |ts|
    decreases |ts|, 0
  {
    if ts == [] then Fail
    else
      match ts[0]
      case TNull => Got(JNull, ts[1..])
      case TStr(s) => Got(JStr(s), ts[1..])
      case TNum(n) => Got(JNum(n), ts[1..])
      case LBracket =>
        (match ParseItems(ts[1..], true)
         case Got(items, rest) => Got(JArr(items), rest)
         case Fail => Fail)
      case LBrace =>
        (match ParseMembers(ts[1..], true)
         case Got(members, rest) => Got(JObj(members), rest)
         case Fail => Fail)
      case _ => Fail
  }

  function ParseItems(ts: seq<Token>, first: bool): (p: Parsed<seq<Json>>)
    ensures p.Got? ==> |p.rest| < |ts|
    decreases |ts|, 1
  {
    if ts == [] then Fail
    else if ts[0] == RBracket then Got([], ts[1..])
    else if !first && ts[0] != Comma then Fail
    else
      match Parse(if first then ts else ts[1..])
      case Fail => Fail
      case Got(item, rest) =>
        match ParseItems(rest, false)
        case Fail => Fail
        case Got(items, rest') => Got([item] + items, rest')
  }

  function ParseMembers(ts: seq<Token>, first: bool): (p: Parsed<seq<Member>>)
    ensures p.Got? ==> |p.rest| < |ts|
    decreases |ts|, 1
  {
    if ts == [] then Fail
    else if ts[0] == RBrace then Got([], ts[1..])
    else if !first && ts[0] != Comma then Fail
    else
      var us := if first then ts else ts[1..];
      if |us| < 2 || !us[0].TStr? || us[1] != Colon then Fail
      else
        match Parse(us[2..])
        case Fail => Fail
        case Got(v, rest) =>
          match ParseMembers(rest, false)
          case Fail => Fail
          case Got(members, rest') => Got([Member(us[0].text, v)] + members, rest')
  }

  lemma PrintStarts(j: Json)
    ensures Print(j) != [] && Print(j)[0] != RBracket && Print(j)[0] != RBrace && Print(j)[0] != Comma
  {
  }

  // ---------------------------------------------------------------- one step of the parser, on any tokens

  lemma OpensArray(body: seq<Token>)
    ensures Parse([LBracket] + body) ==
            match ParseItems(body, true) case Got(items, rest) => Got(JArr(items), rest) case Fail => Fail
  {
    assert ([LBracket] + body)[1..] == body;
  }

  lemma OpensObject(body: seq<Token>)
    ensures Parse([LBrace] + body) ==
            match ParseMembers(body, true) case Got(members, rest) => Got(JObj(members), rest) case Fail => Fail
  {
    assert ([LBrace] + body)[1..] == body;
  }

  /** An element, after its comma unless it is the first. */
  lemma NextItem(text: seq<Token>, item: Json, items: seq<Json>, first: bool, after: seq<Token>, rest: seq<Token>)
    requires text != [] && text[0] != RBracket && text[0] != Comma
    requires Parse(text + after) == Got(item, after) && ParseItems(after, false) == Got(items, rest)
    ensures ParseItems(Separator(first) + (text + after), first) == Got([item] + items, rest)
  {
    assert (text + after)[0] == text[0];
    AfterSeparator(text + after, first);
  }

  lemma AfterSeparator(us: seq<Token>, first: bool)
    requires us != []
    ensures var ts := Separator(first) + us;
            ts != [] && ts[0] == (if first then us[0] else Comma) && (if first then ts else ts[1..]) == us
  {
    assert first ==> Separator(first) + us == us;
  }

  lemma NextMember(text: seq<Token>, m: Member, members: seq<Member>, first: bool, after: seq<Token>, rest: seq<Token>)
    requires Parse(text + after) == Got(m.value, after) && ParseMembers(after, false) == Got(members, rest)
    ensures ParseMembers(Separator(first) + ([TStr(m.key), Colon] + (text + after)), first) == Got([m] + members, rest)
  {
    var us := [TStr(m.key), Colon] + (text + after);
    assert us[0] == TStr(m.key) && us[1] == Colon && us[2..] == text + after;
    AfterSeparator(us, first);
  }

  lemma Regroup(a: seq<Token>, b: seq<Token>, c: seq<Token>, d: seq<Token>, e: seq<Token>)
    ensures a + (c + d) + e == a + (c + (d + e))
    ensures a + (b + (c + d)) + e == a + (b + (c + (d + e)))
  {
  }

  // ---------------------------------------------------------------- the round trip

  /** Parsing what was printed gives the value back, and leaves whatever follows. */
  lemma {:induction false} ParsePrint(j: Json, rest: seq<Token>)
    ensures Parse(Print(j) + rest) == Got(j, rest)
    decreases j, 1
  {
    match j
    case JArr(items) =>
      ParsePrintItems(items, true, rest);
      OpensArray(PrintItems(items, true) + rest);
      assert [LBracket] + PrintItems(items, true) + rest == [LBracket] + (PrintItems(items, true) + rest);
    case JObj(members) =>
      ParsePrintMembers(members, true, rest);
      OpensObject(PrintMembers(members, true) + rest);
      assert [LBrace] + PrintMembers(members, true) + rest == [LBrace] + (PrintMembers(members, true) + rest);
    case _ =>
      ParsePrintLeaf(j, rest);
  }

  lemma ParsePrintLeaf(j: Json, rest: seq<Token>)
    requires !j.JArr? && !j.JObj?
    ensures Parse(Print(j) + rest) == Got(j, rest)
  {
    assert (Print(j) + rest)[1..] == rest;
  }

  lemma {:induction false} ParsePrintItems(items: seq<Json>, first: bool, rest: seq<Token>)
    ensures ParseItems(PrintItems(items, first) + rest, first) == Got(items, rest)
    decreases items, 0
  {
    if items == [] {
      assert ([RBracket] + rest)[1..] == rest;
    } else {
      var tail := PrintItems(items[1..], false);
      ParsePrint(items[0], tail + rest);
      ParsePrintItems(items[1..], false, rest);
      PrintStarts(items[0]);
      NextItem(Print(items[0]), items[0], items[1..], first, tail + rest, rest);
      Regroup(Separator(first), [], Print(items[0]), tail, rest);
      assert [items[0]] + items[1..] == items;
    }
  }

  lemma {:induction false} ParsePrintMembers(members: seq<Member>, first: bool, rest: seq<Token>)
    ensures ParseMembers(PrintMembers(members, first) + rest, first) == Got(members, rest)
    decreases members, 0
  {
    if members == [] {
      assert ([RBrace] + rest)[1..] == rest;
    } else {
      var m, tail := members[0], PrintMembers(members[1..], false);
      ParsePrint(m.value, tail + rest);
      ParsePrintMembers(members[1..], false, rest);
      NextMember(Print(m.value), m, members[1..], first, tail + rest, rest);
      Regroup(Separator(first), [TStr(m.key), Colon], Print(m.value), tail, rest);
      assert [m] + members[1..] == members;
    }
  }

  // ---------------------------------------------------------------- what follows the first value

  lemma DropMore(ts: seq<Token>, extra: seq<Token>, k: nat)
    requires k <= |ts|
    ensures (ts + extra)[k..] == ts[k..] + extra
    ensures forall i :: 0 <= i < k ==> (ts + extra)[i] == ts[i]
  {
  }

  /** A value that was read is read from any longer text as well, and leaves what was added. */
  lemma {:induction false} ParseMore(ts: seq<Token>, extra: seq<Token>)
    requires Parse(ts).Got?
    ensures Parse(ts + extra) == Got(Parse(ts).value, Parse(ts).rest + extra)
    decreases |ts|, 0
  {
    DropMore(ts, extra, 1);
    match ts[0]
    case LBracket => ParseItemsMore(ts[1..], true, extra);
    case LBrace => ParseMembersMore(ts[1..], true, extra);
    case _ =>
  }

  lemma {:induction false} ParseItemsMore(ts: seq<Token>, first: bool, extra: seq<Token>)
    requires ParseItems(ts, first).Got?
    ensures ParseItems(ts + extra, first) == Got(ParseItems(ts, first).value, ParseItems(ts, first).rest + extra)
    decreases |ts|, 1
  {
    DropMore(ts, extra, 1);
    if ts[0] != RBracket {
      var us := if first then ts else ts[1..];
      ParseMore(us, extra);
      ParseItemsMore(Parse(us).rest, false, extra);
    }
  }

  lemma {:induction false} ParseMembersMore(ts: seq<Token>, first: bool, extra: seq<Token>)
    requires ParseMembers(ts, first).Got?
    ensures ParseMembers(ts + extra, first) == Got(ParseMembers(ts, first).value, ParseMembers(ts, first).rest + extra)
    decreases |ts|, 1
  {
    DropMore(ts, extra, 1);
    if ts[0] != RBrace {
      var us := if first then ts else ts[1..];
      DropMore(us, extra, 2);
      assert (us + extra)[0] == us[0] && (us + extra)[1] == us[1];
      ParseMore(us[2..], extra);
      ParseMembersMore(Parse(us[2..]).rest, false, extra);
    }
  }

  // ---------------------------------------------------------------- what is accepted

  /** Nothing but the printed form of a value is accepted. */
  lemma {:induction false} ParseSound(ts: seq<Token>)
    requires Parse(ts).Got?
    ensures ts == Print(Parse(ts).value) + Parse(ts).rest
    decreases |ts|, 0
  {
    assert ts == [ts[0]] + ts[1..];
    match ts[0]
    case LBracket => ItemsSound(ts[1..], true);
    case LBrace => MembersSound(ts[1..], true);
    case _ =>
  }

  lemma {:induction false} ItemsSound(ts: seq<Token>, first: bool)
    requires ParseItems(ts, first).Got?
    ensures ts == PrintItems(ParseItems(ts, first).value, first) + ParseItems(ts, first).rest
    decreases |ts|, 1
  {
    assert ts == [ts[0]] + ts[1..];
    if ts[0] != RBracket {
      var us := if first then ts else ts[1..];
      ParseSound(us);
      var item, rest := Parse(us).value, Parse(us).rest;
      ItemsSound(rest, false);
      var items, rest' := ParseItems(rest, false).value, ParseItems(rest, false).rest;
      assert ([item] + items)[1..] == items;
      Regroup(Separator(first), [], Print(item), PrintItems(items, false), rest');
      assert ts == Separator(first) + us;
    }
  }

  lemma OneMember(m: Member, members: seq<Member>, first: bool)
    ensures PrintMembers([m] + members, first) ==
            Separator(first) + ([TStr(m.key), Colon] + (Print(m.value) + PrintMembers(members, false)))
  {
    assert ([m] + members)[1..] == members;
  }

  lemma {:induction false} MembersSound(ts: seq<Token>, first: bool)
    requires ParseMembers(ts, first).Got?
    ensures ts == PrintMembers(ParseMembers(ts, first).value, first) + ParseMembers(ts, first).rest
    decreases |ts|, 1
  {
    if ts[0] == RBrace {
      assert ts == [RBrace] + ts[1..];
    } else {
      var us := if first then ts else ts[1..];
      var value := Parse(us[2..]);
      var tail := ParseMembers(value.rest, false);
      ParseSound(us[2..]);
      MembersSound(value.rest, false);
      MemberText(ts, us, first, us[0].text, value.value, tail.value, tail.rest);
    }
  }

  lemma MemberText(ts: seq<Token>, us: seq<Token>, first: bool, key: string, v: Json, members: seq<Member>,
                   rest: seq<Token>)
    requires |us| >= 2 && us[0] == TStr(key) && us[1] == Colon
    requires us[2..] == Print(v) + (PrintMembers(members, false) + rest)
    requires if first then us == ts else ts != [] && ts[0] == Comma && us == ts[1..]
    ensures ts == PrintMembers([Member(key, v)] + members, first) + rest
  {
    OneMember(Member(key, v), members, first);
    assert us == [TStr(key), Colon] + us[2..];
    assert ts == Separator(first) + us;
    Regroup(Separator(first), [TStr(key), Colon], Print(v), PrintMembers(members, false), rest);
  }
}
