/** JSON texts as in sections 2 to 7 of RFC 8259, whitespace included, and that the finder's grammar covers
    their objects. Numbers and strings are taken loosely: any sequence of a number's characters, any escape. */
module JsonTexts {
  import opened JsonFinder

  datatype Value =
    | Literal(text: string)
    | Str(chars: seq<StringChar>)
    | Arr(pad: string, items: Items)
    | Obj(pad: string, members: Members)

  /** Values between whitespace. */
  datatype Items = NoItems | Items(before: string, value: Value, after: string, rest: Items)

  datatype Members =
    | NoMembers
    | Members(before: string, name: seq<StringChar>, between: string,
              beforeValue: string, value: Value, after: string, rest: Members)

  predicate Space(s: string) {
    forall i | 0 <= i < |s| :: s[i] == ' ' || s[i] == '\t' || s[i] == '\n' || s[i] == '\r'
  }

  predicate IsLiteral(t: string) {
    t == "true" || t == "false" || t == "null" || (t != "" && forall i | 0 <= i < |t| :: '0' <= t[i] <= '9' || t[i] in "+-.eE")
  }

  predicate LegalValue(v: Value) {
    match v
    case Literal(text) => IsLiteral(text)
    case Str(chars) => LegalChars(chars)
    case Arr(pad, items) => Space(pad) && LegalItems(items)
    case Obj(pad, members) => Space(pad) && LegalMembers(members)
  }

  predicate LegalItems(items: Items) {
    match items
    case NoItems => true
    case Items(before, value, after, rest) => Space(before) && LegalValue(value) && Space(after) && LegalItems(rest)
  }

  predicate LegalMembers(members: Members) {
    match members
    case NoMembers => true
    case Members(before, name, between, beforeValue, value, after, rest) =>
      && Space(before) && LegalChars(name) && Space(between)
      && Space(beforeValue) && LegalValue(value) && Space(after) && LegalMembers(rest)
  }

  /** The text of a value, with `tail` behind it. */
  function ValueText(v: Value, tail: string): string
    decreases v, 0
  {
    match v
    case Literal(text) => text + tail
    case Str(chars) => StringText(chars, tail)
    case Arr(pad, items) => "[" + (pad + ItemsText(items, "]" + tail))
    case Obj(pad, members) => ObjectText(pad, members) + tail
  }

  function ObjectText(pad: string, members: Members): string
    decreases members, 1
  {
    "{" + (pad + MembersText(members, "")) + "}"
  }

  function StringText(chars: seq<StringChar>, tail: string): string {
    "\"" + PrintChars(chars) + "\"" + tail
  }

  function ItemsText(items: Items, tail: string): string
    decreases items, 0
  {
    match items
    case NoItems => tail
    case Items(before, value, after, rest) =>
      before + ValueText(value, after + if rest.NoItems? then tail else "," + ItemsText(rest, tail))
  }

  function MembersText(members: Members, tail: string): string
    decreases members, 0
  {
    match members
    case NoMembers => tail
    case Members(before, name, between, beforeValue, value, after, rest) =>
      before + StringText(name, between + (":" + (beforeValue +
        ValueText(value, after + if rest.NoMembers? then tail else "," + MembersText(rest, tail)))))
  }

  // ---------------------------------------------------- as the finder sees it

  /** The body `b` of the finder's grammar is legal and printed as `s`. */
  predicate Shows(b: Body, s: string) {
    Legal(b) && Print(b) == s
  }

  /** Characters without meaning to the scan. */
  predicate Flat(s: string) {
    forall i | 0 <= i < |s| :: s[i] != '"' && s[i] != '{' && s[i] != '}'
  }

  function Plains(s: string, rest: Body): Body {
    if s == "" then rest else Plain(s[0], Plains(s[1..], rest))
  }

  lemma {:induction false} PlainsShow(s: string, rest: Body, tail: string)
    requires Flat(s) && Shows(rest, tail)
    ensures Shows(Plains(s, rest), s + tail)
  {
    if s != "" {
      assert s + tail == [s[0]] + (s[1..] + tail);
      PlainsShow(s[1..], rest, tail);
    } else {
      assert s + tail == tail;
    }
  }

  lemma PlainShows(c: char, rest: Body, tail: string)
    requires c != '"' && c != '{' && c != '}' && Shows(rest, tail)
    ensures Shows(Plain(c, rest), [c] + tail)
  {}

  lemma QuotedShows(chars: seq<StringChar>, rest: Body, tail: string)
    requires LegalChars(chars) && Shows(rest, tail)
    ensures Shows(Quoted(chars, rest), StringText(chars, tail))
  {}

  lemma ObjectShows(inner: Body, text: string, rest: Body, tail: string)
    requires Shows(inner, text) && Shows(rest, tail)
    ensures Shows(Object(inner, rest), "{" + text + "}" + tail)
  {}

  /** A body that shows a value and goes on with `rest`. */
  function ValueBody(v: Value, rest: Body): Body {
    match v
    case Literal(text) => Plains(text, rest)
    case Str(chars) => Quoted(chars, rest)
    case Arr(pad, items) => Plain('[', Plains(pad, ItemsBody(items, Plain(']', rest))))
    case Obj(pad, members) => Object(Plains(pad, MembersBody(members, End)), rest)
  }

  function ItemsBody(items: Items, rest: Body): Body {
    match items
    case NoItems => rest
    case Items(before, value, after, more) =>
      Plains(before, ValueBody(value, Plains(after,
        if more.NoItems? then rest else Plain(',', ItemsBody(more, rest)))))
  }

  function MembersBody(members: Members, rest: Body): Body {
    match members
    case NoMembers => rest
    case Members(before, name, between, beforeValue, value, after, more) =>
      Plains(before, Quoted(name, Plains(between, Plain(':', Plains(beforeValue, ValueBody(value, Plains(after,
        if more.NoMembers? then rest else Plain(',', MembersBody(more, rest)))))))))
  }

  lemma {:induction false} ValueShows(v: Value, rest: Body, tail: string)
    requires LegalValue(v) && Shows(rest, tail)
    ensures Shows(ValueBody(v, rest), ValueText(v, tail))
    decreases v, 0
  {
    hide Shows, Plains, StringText;
    match v
    case Literal(text) =>
      PlainsShow(text, rest, tail);
    case Str(chars) =>
      QuotedShows(chars, rest, tail);
    case Arr(pad, items) =>
      PlainShows(']', rest, tail);
      ItemsShow(items, Plain(']', rest), "]" + tail);
      PlainsShow(pad, ItemsBody(items, Plain(']', rest)), ItemsText(items, "]" + tail));
      PlainShows('[', Plains(pad, ItemsBody(items, Plain(']', rest))), pad + ItemsText(items, "]" + tail));
    case Obj(pad, members) =>
      InnerShows(pad, members);
      ObjectShows(Plains(pad, MembersBody(members, End)), pad + MembersText(members, ""), rest, tail);
  }

  lemma {:induction false} InnerShows(pad: string, members: Members)
    requires Space(pad) && LegalMembers(members)
    ensures Shows(Plains(pad, MembersBody(members, End)), pad + MembersText(members, ""))
    decreases members, 1
  {
    assert Shows(End, "");
    hide Shows;
    MembersShow(members, End, "");
    PlainsShow(pad, MembersBody(members, End), MembersText(members, ""));
  }

  lemma {:induction false} ItemsShow(items: Items, rest: Body, tail: string)
    requires LegalItems(items) && Shows(rest, tail)
    ensures Shows(ItemsBody(items, rest), ItemsText(items, tail))
    decreases items, 0
  {
    hide Shows, Plains;
    match items
    case NoItems =>
    case Items(before, value, after, more) =>
      var next, follow := if more.NoItems? then rest else Plain(',', ItemsBody(more, rest)),
                         if more.NoItems? then tail else "," + ItemsText(more, tail);
      if !more.NoItems? {
        ItemsShow(more, rest, tail);
        PlainShows(',', ItemsBody(more, rest), ItemsText(more, tail));
      }
      PlainsShow(after, next, follow);
      ValueShows(value, Plains(after, next), after + follow);
      PlainsShow(before, ValueBody(value, Plains(after, next)), ValueText(value, after + follow));
  }

  lemma {:induction false} MembersShow(members: Members, rest: Body, tail: string)
    requires LegalMembers(members) && Shows(rest, tail)
    ensures Shows(MembersBody(members, rest), MembersText(members, tail))
    decreases members, 0
  {
    hide Shows, Plains, StringText;
    match members
    case NoMembers =>
    case Members(before, name, between, beforeValue, value, after, more) =>
      var next, follow := if more.NoMembers? then rest else Plain(',', MembersBody(more, rest)),
                         if more.NoMembers? then tail else "," + MembersText(more, tail);
      if !more.NoMembers? {
        MembersShow(more, rest, tail);
        PlainShows(',', MembersBody(more, rest), MembersText(more, tail));
      }
      PlainsShow(after, next, follow);
      ValueShows(value, Plains(after, next), after + follow);
      var b, t := ValueBody(value, Plains(after, next)), ValueText(value, after + follow);
      PlainsShow(beforeValue, b, t);
      PlainShows(':', Plains(beforeValue, b), beforeValue + t);
      b, t := Plain(':', Plains(beforeValue, b)), ":" + (beforeValue + t);
      PlainsShow(between, b, t);
      QuotedShows(name, Plains(between, b), between + t);
      PlainsShow(before, Quoted(name, Plains(between, b)), StringText(name, between + t));
  }

  /** Every JSON object, with any whitespace, is an object text of the finder, which gets it back whole
      from between brace-free texts. */
  lemma JsonObjectIsFound(pad: string, members: Members, gap: string, tail: string)
    requires LegalValue(Obj(pad, members)) && '{' !in gap && '{' !in tail
    ensures var text := ObjectText(pad, members);
      IsObjectText(text) && Found(gap + (text + tail), 0) == [text]
  {
    var inner := Plains(pad, MembersBody(members, End));
    InnerShows(pad, members);
    assert ObjectText(pad, members) == PrintObject(inner);
    var chunks := [Chunk(gap, inner)];
    assert PrintChunks(chunks[1..], tail) == tail && PrintedObjects(chunks[1..]) == [];
    FinderInvertsPrinter(chunks, tail);
  }
}
