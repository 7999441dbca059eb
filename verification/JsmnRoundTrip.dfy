/**
  Printing a JSON value and tokenizing the text gives the value back.  Values are
  printed as RFC 8259 writes them (sections 4, 5 and 7), with blanks wherever section 2
  allows them: around every structural character and around the whole value.  Which blanks
  is up to a layout that says what to print at each position; none is the compact form.
 */
module JsmnRoundTrip {
  import opened JsmnLexer
  import opened JsmnTree
  import opened JsmnMachine
  import opened JsmnStructure
  import opened Basics

  datatype Json =
    | Prim(text: string)
    | Str(body: string)
    | Arr(items: seq<Json>)
    | Obj(members: seq<Member>)

  datatype Member = Member(key: string, value: Json)

  // ----- printing

  function Quoted(body: string): string {
    "\"" + body + "\""
  }

  /** What blanks to print, by the position in the text at which they would stand. */
  type Layout = nat -> string

  function CommaAt(gap: Layout, p: nat): string { gap(p) + "," + gap(p + |gap(p)| + 1) }

  function ColonAt(gap: Layout, p: nat): string { gap(p) + ":" + gap(p + |gap(p)| + 1) }

  function OpenText(kind: TokenType): string { if kind == Array then "[" else "{" }

  function CloseText(kind: TokenType): string { if kind == Array then "]" else "}" }

  function Bracketed(kind: TokenType, a: string, text: string, b: string): (s: string)
    ensures |s| == |a| + |text| + |b| + 2
  {
    (OpenText(kind) + a) + (text + (b + CloseText(kind)))
  }

  /** Where the inside of a container printed at `p` begins. */
  function Inside(gap: Layout, p: nat): nat { p + 1 + |gap(p + 1)| }

  /** A container printed at `p`, given the text inside. */
  function Enclosed(kind: TokenType, text: string, gap: Layout, p: nat): string {
    Bracketed(kind, gap(p + 1), text, gap(Inside(gap, p) + |text|))
  }

  /** The text of a value that stands at position `p`. */
  function Print(j: Json, gap: Layout, p: nat): (s: string)
    decreases j
  {
    match j
    case Prim(text) => text
    case Str(body) => Quoted(body)
    case Arr(items) => Enclosed(Array, PrintItems(items, gap, Inside(gap, p)), gap, p)
    case Obj(members) => Enclosed(Object, PrintMembers(members, gap, Inside(gap, p)), gap, p)
  }

  function PrintItems(items: seq<Json>, gap: Layout, p: nat): string
    decreases items, 0
  {
    if items == [] then ""
    else
      var ahead := ItemsAhead(items[..|items| - 1], gap, p);
      ahead + Print(items[|items| - 1], gap, p + |ahead|)
  }

  /** The items before another one, with the comma that follows them. */
  function ItemsAhead(items: seq<Json>, gap: Layout, p: nat): string
    decreases items, 1
  {
    if items == [] then "" else PrintItems(items, gap, p) + CommaAt(gap, p + |PrintItems(items, gap, p)|)
  }

  function PrintMembers(members: seq<Member>, gap: Layout, p: nat): string
    decreases members, 0
  {
    if members == [] then ""
    else
      var ahead := MembersAhead(members[..|members| - 1], gap, p);
      ahead + MemberText(members[|members| - 1], gap, p + |ahead|)
  }

  function MemberText(m: Member, gap: Layout, p: nat): string
    decreases m
  {
    Quoted(m.key) + (ColonAt(gap, p + |Quoted(m.key)|) + Print(m.value, gap, ValueAt(m, gap, p)))
  }

  /** Where the value of a member printed at `p` begins. */
  function ValueAt(m: Member, gap: Layout, p: nat): nat {
    p + |Quoted(m.key)| + |ColonAt(gap, p + |Quoted(m.key)|)|
  }

  function MembersAhead(members: seq<Member>, gap: Layout, p: nat): string
    decreases members, 1
  {
    if members == [] then "" else PrintMembers(members, gap, p) + CommaAt(gap, p + |PrintMembers(members, gap, p)|)
  }

  /** A whole text: a value with blanks before and after it. */
  function Document(j: Json, gap: Layout): string {
    gap(0) + (Print(j, gap, |gap(0)|) + gap(|gap(0)| + |Print(j, gap, |gap(0)|)|))
  }

  // ----- which values have a text

  predicate BlankChar(c: char) {
    c == ' ' || c == '\t' || c == '\r' || c == '\n'
  }

  predicate Blanks(gap: string) {
    forall i :: 0 <= i < |gap| ==> BlankChar(gap[i])
  }

  ghost predicate BlankLayout(gap: Layout) {
    forall p: nat :: Blanks(gap(p))
  }

  /** A number or literal: printable, without delimiters, not opening a string or a container. */
  predicate PrimOk(text: string) {
    && text != "" && text[0] != '{' && text[0] != '[' && text[0] != '\"'
    && forall i :: 0 <= i < |text| ==> Printable(text[i]) && !Delimiter(text[i])
  }

  /** A string body in which every quote is escaped and every escape is complete. */
  predicate WellEscaped(body: string)
    decreases |body|
  {
    if body == "" then true
    else if body[0] == '\\' then
      if |body| >= 2 && SimpleEscape(body[1]) then WellEscaped(body[2..])
      else |body| >= 6 && body[1] == 'u' && (forall i :: 2 <= i < 6 ==> Hex(body[i])) && WellEscaped(body[6..])
    else body[0] != '\"' && body[0] != '\0' && WellEscaped(body[1..])
  }

  predicate WellFormed(j: Json)
    decreases j
  {
    match j
    case Prim(text) => PrimOk(text)
    case Str(body) => WellEscaped(body)
    case Arr(items) => forall x :: x in items ==> WellFormed(x)
    case Obj(members) => forall m :: m in members ==> WellEscaped(m.key) && WellFormed(m.value)
  }

  // ----- where the nodes of a printed value lie

  function NodeAt(j: Json, gap: Layout, p: nat): Node
    decreases j
  {
    match j
    case Prim(text) => Item(Primitive, p, p + |text|)
    case Str(body) => Item(String, p + 1, p + 1 + |body|)
    case Arr(items) => Branch(Array, p, p + |Print(j, gap, p)|, ItemsAt(items, gap, Inside(gap, p)))
    case Obj(members) => Branch(Object, p, p + |Print(j, gap, p)|, MembersAt(members, gap, Inside(gap, p)))
  }

  function ItemsAt(items: seq<Json>, gap: Layout, p: nat): seq<Node>
    decreases items
  {
    if items == [] then []
    else
      var ahead := items[..|items| - 1];
      ItemsAt(ahead, gap, p) + [NodeAt(items[|items| - 1], gap, p + |ItemsAhead(ahead, gap, p)|)]
  }

  function MembersAt(members: seq<Member>, gap: Layout, p: nat): seq<Node>
    decreases members
  {
    if members == [] then []
    else
      var ahead, last := members[..|members| - 1], members[|members| - 1];
      var q := p + |MembersAhead(ahead, gap, p)|;
      MembersAt(ahead, gap, p)
      + [Item(String, q + 1, q + 1 + |last.key|), NodeAt(last.value, gap, ValueAt(last, gap, q))]
  }

  /** Number of nodes of a value, keys included. */
  function NodeCount(j: Json): nat
    decreases j
  {
    match j
    case Prim(_) => 1
    case Str(_) => 1
    case Arr(items) => 1 + ItemsCount(items)
    case Obj(members) => 1 + MembersCount(members)
  }

  function ItemsCount(items: seq<Json>): nat
    decreases items
  {
    if items == [] then 0 else ItemsCount(items[..|items| - 1]) + NodeCount(items[|items| - 1])
  }

  function MembersCount(members: seq<Member>): nat
    decreases members
  {
    if members == [] then 0
    else MembersCount(members[..|members| - 1]) + 1 + NodeCount(members[|members| - 1].value)
  }

  // ----- text at a position

  predicate At(js: string, len: nat, p: nat, s: string) {
    p + |s| <= len <= |js| && js[p..p + |s|] == s
  }

  lemma AtFits(js: string, len: nat, p: nat, s: string)
    requires At(js, len, p, s)
    ensures p + |s| <= len <= |js|
  {
  }

  lemma AtSplit(js: string, len: nat, p: nat, a: string, b: string)
    requires At(js, len, p, a + b)
    ensures At(js, len, p, a) && At(js, len, p + |a|, b)
  {
    var s := js[p..p + |a + b|];
    assert js[p..p + |a|] == s[..|a|] == a;
    assert js[p + |a|..p + |a| + |b|] == s[|a|..] == b;
  }

  lemma AtChar(js: string, len: nat, p: nat, s: string, i: nat)
    requires At(js, len, p, s) && i < |s|
    ensures p + i < len <= |js| && js[p + i] == s[i]
  {
    assert js[p..p + |s|][i] == s[i];
  }

  /** What follows a value: the end of the text, or a character that ends a primitive. */
  predicate Follow(js: string, len: nat, p: nat)
    requires Readable(js, len)
  {
    AtEnd(js, len, p) || Delimiter(js[p])
  }

  // ----- lexing printed text

  lemma {:induction false} PrimitiveText(js: string, len: nat, p: nat, text: string, i: nat)
    requires Readable(js, len) && At(js, len, p, text) && PrimOk(text) && i <= |text|
    requires Follow(js, len, p + |text|)
    ensures ScanPrimitive(js, len, p + i) == Ends(p + |text|)
    decreases |text| - i
  {
    if i < |text| {
      AtChar(js, len, p, text, i);
      PrimitiveText(js, len, p, text, i + 1);
    }
  }

  lemma {:induction false} StringText(js: string, len: nat, p: nat, body: string)
    requires Readable(js, len) && At(js, len, p, body) && WellEscaped(body)
    requires p + |body| < len && js[p + |body|] == '\"'
    ensures ScanString(js, len, p) == Ends(p + |body|)
    decreases |body|
  {
    if body != "" {
      AtChar(js, len, p, body, 0);
      var step := if body[0] != '\\' then 1 else if SimpleEscape(body[1]) then 2 else 6;
      if body[0] == '\\' { AtChar(js, len, p, body, 1); }
      if step == 6 { HexText(js, len, p, body); }
      assert body == body[..step] + body[step..];
      AtSplit(js, len, p, body[..step], body[step..]);
      StringText(js, len, p + step, body[step..]);
    }
  }

  lemma {:induction false} HexText(js: string, len: nat, p: nat, body: string)
    requires Readable(js, len) && At(js, len, p, body) && |body| >= 6
    requires forall i :: 2 <= i < 6 ==> Hex(body[i])
    ensures SkipHex(js, p + 2, 4) == Ends(p + 6)
  {
    AtChar(js, len, p, body, 2);
    AtChar(js, len, p, body, 3);
    AtChar(js, len, p, body, 4);
    AtChar(js, len, p, body, 5);
    assert SkipHex(js, p + 5, 1) == SkipHex(js, p + 6, 0);
    assert SkipHex(js, p + 4, 2) == SkipHex(js, p + 5, 1);
    assert SkipHex(js, p + 3, 3) == SkipHex(js, p + 4, 2);
  }

  // ----- running over printed text

  predicate Skippable(s: string) {
    forall i :: 0 <= i < |s| ==> BlankChar(s[i]) || s[i] == ',' || s[i] == ':'
  }

  lemma {:induction false} RunBlanks(js: string, len: nat, p: nat, z: Zip, s: string, i: nat)
    requires Readable(js, len) && At(js, len, p, s) && Skippable(s) && i <= |s|
    ensures Run(js, len, p + i, z) == Run(js, len, p + |s|, z)
    decreases |s| - i
  {
    hide ScanString, ScanPrimitive, SkipHex, At;
    if i < |s| {
      AtChar(js, len, p, s, i);
      RunBlanks(js, len, p, z, s, i + 1);
    }
  }

  lemma {:induction false} RunString(js: string, len: nat, p: nat, z: Zip, body: string)
    requires Readable(js, len) && At(js, len, p, Quoted(body)) && WellEscaped(body)
    ensures Run(js, len, p, z)
         == Run(js, len, p + |Quoted(body)|, AddChild(z, Item(String, p + 1, p + 1 + |body|)))
  {
    hide ScanPrimitive, WellEscaped;
    AtChar(js, len, p, Quoted(body), 0);
    AtChar(js, len, p, Quoted(body), |body| + 1);
    assert Quoted(body) == "\"" + (body + "\"");
    AtSplit(js, len, p, "\"", body + "\"");
    AtSplit(js, len, p + 1, body, "\"");
    StringText(js, len, p + 1, body);
  }

  lemma {:induction false} RunPrimitive(js: string, len: nat, p: nat, z: Zip, text: string)
    requires Readable(js, len) && At(js, len, p, text) && PrimOk(text) && Follow(js, len, p + |text|)
    ensures Run(js, len, p, z) == Run(js, len, p + |text|, AddChild(z, Item(Primitive, p, p + |text|)))
  {
    AtChar(js, len, p, text, 0);
    PrimitiveText(js, len, p, text, 0);
  }

  lemma {:induction false} RunOpen(js: string, len: nat, p: nat, z: Zip, kind: TokenType, gap: string)
    requires Readable(js, len) && Container(kind) && Blanks(gap)
    requires At(js, len, p, OpenText(kind) + gap)
    ensures Run(js, len, p, z) == Run(js, len, p + 1 + |gap|, In(z, kind, p, []))
  {
    hide ScanString, ScanPrimitive, SkipHex, At;
    var open := OpenText(kind);
    AtChar(js, len, p, open + gap, 0);
    AtSplit(js, len, p, open, gap);
    RunBlanks(js, len, p + 1, In(z, kind, p, []), gap, 0);
  }

  lemma {:induction false} RunClose(js: string, len: nat, p: nat, z: Zip, gap: string)
    requires Readable(js, len) && z.In? && Container(z.kind) && Blanks(gap)
    requires p + |gap| < len && At(js, len, p, gap + CloseText(z.kind))
    ensures var q := p + |gap| + 1;
            Run(js, len, p, z) == Run(js, len, q, AddChild(z.up, Branch(z.kind, z.start, q, z.kids)))
  {
    hide At, ScanString, ScanPrimitive, SkipHex;
    var close := CloseText(z.kind);
    AtSplit(js, len, p, gap, close);
    AtChar(js, len, p + |gap|, close, 0);
    RunBlanks(js, len, p, z, gap, 0);
    assert Lex(js, len, p + |gap|) == Lexed(Close(z.kind), p + |gap| + 1);
  }

  /** A blank, a comma or a closing bracket ends whatever is before it. */
  lemma FollowText(js: string, len: nat, p: nat, s: string)
    requires Readable(js, len) && At(js, len, p, s) && s != "" && Delimiter(s[0])
    ensures Follow(js, len, p)
  {
    AtChar(js, len, p, s, 0);
  }

  lemma CommaText(js: string, len: nat, p: nat, gap: Layout)
    requires Readable(js, len) && BlankLayout(gap) && At(js, len, p, CommaAt(gap, p))
    ensures Skippable(CommaAt(gap, p)) && Follow(js, len, p)
  {
    assert Blanks(gap(p)) && Blanks(gap(p + |gap(p)| + 1));
    FollowText(js, len, p, CommaAt(gap, p));
  }

  lemma ItemsSplit(js: string, len: nat, p: nat, items: seq<Json>, gap: Layout)
    requires items != [] && At(js, len, p, PrintItems(items, gap, p))
    ensures var ahead := items[..|items| - 1];
            var q := p + |ItemsAhead(ahead, gap, p)|;
            && At(js, len, q, Print(items[|items| - 1], gap, q))
            && At(js, len, p, PrintItems(ahead, gap, p))
            && (ahead != [] ==> var c := p + |PrintItems(ahead, gap, p)|; At(js, len, c, CommaAt(gap, c)))
  {
    hide At, Print, CommaAt;
    var ahead := items[..|items| - 1];
    var q := p + |ItemsAhead(ahead, gap, p)|;
    AtSplit(js, len, p, ItemsAhead(ahead, gap, p), Print(items[|items| - 1], gap, q));
    if ahead == [] {
      assert PrintItems(ahead, gap, p) == ItemsAhead(ahead, gap, p);
    } else {
      AtSplit(js, len, p, PrintItems(ahead, gap, p), CommaAt(gap, p + |PrintItems(ahead, gap, p)|));
    }
  }

  lemma MembersSplit(js: string, len: nat, p: nat, members: seq<Member>, gap: Layout)
    requires members != [] && At(js, len, p, PrintMembers(members, gap, p))
    ensures var ahead, last := members[..|members| - 1], members[|members| - 1];
            var q := p + |MembersAhead(ahead, gap, p)|;
            && At(js, len, q, MemberText(last, gap, q))
            && At(js, len, p, PrintMembers(ahead, gap, p))
            && (ahead != [] ==> var c := p + |PrintMembers(ahead, gap, p)|; At(js, len, c, CommaAt(gap, c)))
  {
    hide At, MemberText, CommaAt;
    var ahead, last := members[..|members| - 1], members[|members| - 1];
    var q := p + |MembersAhead(ahead, gap, p)|;
    AtSplit(js, len, p, MembersAhead(ahead, gap, p), MemberText(last, gap, q));
    if ahead == [] {
      assert PrintMembers(ahead, gap, p) == MembersAhead(ahead, gap, p);
    } else {
      AtSplit(js, len, p, PrintMembers(ahead, gap, p), CommaAt(gap, p + |PrintMembers(ahead, gap, p)|));
    }
  }

  lemma MemberSplit(js: string, len: nat, q: nat, m: Member, gap: Layout)
    requires At(js, len, q, MemberText(m, gap, q))
    ensures At(js, len, q, Quoted(m.key))
    ensures At(js, len, q + |Quoted(m.key)|, ColonAt(gap, q + |Quoted(m.key)|))
    ensures At(js, len, ValueAt(m, gap, q), Print(m.value, gap, ValueAt(m, gap, q)))
  {
    hide At, Quoted, ColonAt, Print;
    var colon, value := ColonAt(gap, q + |Quoted(m.key)|), Print(m.value, gap, ValueAt(m, gap, q));
    AtSplit(js, len, q, Quoted(m.key), colon + value);
    AtSplit(js, len, q + |Quoted(m.key)|, colon, value);
  }

  lemma ColonText(gap: Layout, p: nat)
    requires BlankLayout(gap)
    ensures Skippable(ColonAt(gap, p))
  {
    assert Blanks(gap(p)) && Blanks(gap(p + |gap(p)| + 1));
  }

  lemma BracketedSplit(js: string, len: nat, p: nat, kind: TokenType, a: string, text: string, b: string)
    requires Readable(js, len) && At(js, len, p, Bracketed(kind, a, text, b))
    ensures At(js, len, p, OpenText(kind) + a)
    ensures At(js, len, p + 1 + |a|, text)
    ensures At(js, len, p + 1 + |a| + |text|, b + CloseText(kind))
    ensures Blanks(b) ==> Follow(js, len, p + 1 + |a| + |text|)
  {
    hide At, Follow, Blanks;
    var before, after := OpenText(kind) + a, b + CloseText(kind);
    AtSplit(js, len, p, before, text + after);
    AtSplit(js, len, p + |before|, text, after);
    if Blanks(b) { CloseFollows(js, len, p + |before| + |text|, kind, b); }
  }

  lemma CloseFollows(js: string, len: nat, p: nat, kind: TokenType, gap: string)
    requires Readable(js, len) && Blanks(gap) && At(js, len, p, gap + CloseText(kind))
    ensures Follow(js, len, p)
  {
    AtChar(js, len, p, gap + CloseText(kind), 0);
  }

  /** A bracketed text whose inside adds `kids` adds one branch over them. */
  lemma {:induction false} RunBracketed(js: string, len: nat, p: nat, z: Zip, kind: TokenType,
                                        a: string, text: string, b: string, kids: seq<Node>)
    requires Readable(js, len) && Container(kind) && Blanks(a) && Blanks(b)
    requires At(js, len, p, Bracketed(kind, a, text, b))
    requires Run(js, len, p + 1 + |a|, In(z, kind, p, []))
          == Run(js, len, p + 1 + |a| + |text|, In(z, kind, p, kids))
    ensures var q := p + |Bracketed(kind, a, text, b)|;
            Run(js, len, p, z) == Run(js, len, q, AddChild(z, Branch(kind, p, q, kids)))
  {
    hide Run, At, OpenText, CloseText;
    BracketedSplit(js, len, p, kind, a, text, b);
    RunOpen(js, len, p, z, kind, a);
    assert p + |Bracketed(kind, a, text, b)| <= len by { AtFits(js, len, p, Bracketed(kind, a, text, b)); }
    RunClose(js, len, p + 1 + |a| + |text|, In(z, kind, p, kids), b);
  }

  /** What a printed container says about its inside, and what its inside says about it. */
  lemma {:induction false} InsideText(js: string, len: nat, p: nat, kind: TokenType, text: string, gap: Layout)
    requires Readable(js, len) && At(js, len, p, Enclosed(kind, text, gap, p))
    ensures At(js, len, Inside(gap, p), text)
    ensures BlankLayout(gap) ==> Follow(js, len, Inside(gap, p) + |text|)
  {
    hide At, Follow, Blanks, Bracketed;
    BracketedSplit(js, len, p, kind, gap(p + 1), text, gap(Inside(gap, p) + |text|));
  }

  lemma {:induction false} RunEnclosed(js: string, len: nat, p: nat, z: Zip, kind: TokenType,
                                       text: string, gap: Layout, kids: seq<Node>)
    requires Readable(js, len) && Container(kind) && BlankLayout(gap)
    requires At(js, len, p, Enclosed(kind, text, gap, p))
    requires Run(js, len, Inside(gap, p), In(z, kind, p, []))
          == Run(js, len, Inside(gap, p) + |text|, In(z, kind, p, [] + kids))
    ensures var q := p + |Enclosed(kind, text, gap, p)|;
            Run(js, len, p, z) == Run(js, len, q, AddChild(z, Branch(kind, p, q, kids)))
  {
    hide Run, At, Blanks, Bracketed;
    assert [] + kids == kids;
    RunBracketed(js, len, p, z, kind, gap(p + 1), text, gap(Inside(gap, p) + |text|), kids);
  }

  /** Tokenizing a printed value adds exactly its node and stops right after it. */
  lemma {:induction false} RunValue(js: string, len: nat, p: nat, z: Zip, j: Json, gap: Layout)
    requires Readable(js, len) && WellFormed(j) && BlankLayout(gap)
    requires At(js, len, p, Print(j, gap, p)) && Follow(js, len, p + |Print(j, gap, p)|)
    ensures Run(js, len, p, z) == Run(js, len, p + |Print(j, gap, p)|, AddChild(z, NodeAt(j, gap, p)))
    decreases j
  {
    hide Run, At, Follow, PrintItems, PrintMembers, ItemsAt, MembersAt, BlankLayout, Enclosed, Inside;
    match j {
      case Prim(text) => RunPrimitive(js, len, p, z, text);
      case Str(body) => RunString(js, len, p, z, body);
      case Arr(items) =>
        var q := Inside(gap, p);
        InsideText(js, len, p, Array, PrintItems(items, gap, q), gap);
        RunItems(js, len, q, In(z, Array, p, []), items, gap);
        RunEnclosed(js, len, p, z, Array, PrintItems(items, gap, q), gap, ItemsAt(items, gap, q));
      case Obj(members) =>
        var q := Inside(gap, p);
        InsideText(js, len, p, Object, PrintMembers(members, gap, q), gap);
        RunMembers(js, len, q, In(z, Object, p, []), members, gap);
        RunEnclosed(js, len, p, z, Object, PrintMembers(members, gap, q), gap, MembersAt(members, gap, q));
    }
  }

  lemma {:induction false} RunItems(js: string, len: nat, p: nat, z: Zip, items: seq<Json>, gap: Layout)
    requires Readable(js, len) && BlankLayout(gap) && forall x :: x in items ==> WellFormed(x)
    requires At(js, len, p, PrintItems(items, gap, p)) && Follow(js, len, p + |PrintItems(items, gap, p)|)
    ensures Run(js, len, p, z)
         == Run(js, len, p + |PrintItems(items, gap, p)|, z.(kids := z.kids + ItemsAt(items, gap, p)))
    decreases items
  {
    hide Run, Print, At, Follow, NodeAt, CommaAt, BlankLayout, Skippable;
    if items == [] {
      assert z.kids + [] == z.kids;
    } else {
      var ahead, last := items[..|items| - 1], items[|items| - 1];
      var q := p + |ItemsAhead(ahead, gap, p)|;
      var kids := ItemsAt(ahead, gap, p);
      ItemsSplit(js, len, p, items, gap);
      if ahead == [] {
        assert z.kids + kids == z.kids;
      } else {
        var c := p + |PrintItems(ahead, gap, p)|;
        CommaText(js, len, c, gap);
        RunItems(js, len, p, z, ahead, gap);
        RunBlanks(js, len, c, z.(kids := z.kids + kids), CommaAt(gap, c), 0);
      }
      assert last in items;
      RunValue(js, len, q, z.(kids := z.kids + kids), last, gap);
      assert (z.kids + kids) + [NodeAt(last, gap, q)] == z.kids + (kids + [NodeAt(last, gap, q)]);
    }
  }

  lemma {:induction false} RunMembers(js: string, len: nat, p: nat, z: Zip, members: seq<Member>, gap: Layout)
    requires Readable(js, len) && BlankLayout(gap)
    requires forall m :: m in members ==> WellEscaped(m.key) && WellFormed(m.value)
    requires At(js, len, p, PrintMembers(members, gap, p)) && Follow(js, len, p + |PrintMembers(members, gap, p)|)
    ensures Run(js, len, p, z)
         == Run(js, len, p + |PrintMembers(members, gap, p)|, z.(kids := z.kids + MembersAt(members, gap, p)))
    decreases members
  {
    hide Run, Print, At, Follow, NodeAt, CommaAt, BlankLayout, Skippable, MemberText, ValueAt, WellFormed, WellEscaped;
    if members == [] {
      assert z.kids + [] == z.kids;
    } else {
      var ahead, last := members[..|members| - 1], members[|members| - 1];
      var q := p + |MembersAhead(ahead, gap, p)|;
      var kids := MembersAt(ahead, gap, p);
      MembersSplit(js, len, p, members, gap);
      if ahead == [] {
        assert z.kids + kids == z.kids;
      } else {
        var c := p + |PrintMembers(ahead, gap, p)|;
        CommaText(js, len, c, gap);
        RunMembers(js, len, p, z, ahead, gap);
        RunBlanks(js, len, c, z.(kids := z.kids + kids), CommaAt(gap, c), 0);
      }
      assert last in members;
      RunMember(js, len, q, z.(kids := z.kids + kids), last, gap);
      var key := Item(String, q + 1, q + 1 + |last.key|);
      var value := NodeAt(last.value, gap, ValueAt(last, gap, q));
      assert (z.kids + kids) + [key] + [value] == z.kids + (kids + [key, value]);
    }
  }

  lemma {:induction false} RunMember(js: string, len: nat, q: nat, z: Zip, m: Member, gap: Layout)
    requires Readable(js, len) && BlankLayout(gap) && WellEscaped(m.key) && WellFormed(m.value)
    requires At(js, len, q, MemberText(m, gap, q)) && Follow(js, len, q + |MemberText(m, gap, q)|)
    ensures Run(js, len, q, z) == Run(js, len, q + |MemberText(m, gap, q)|,
                AddChild(AddChild(z, Item(String, q + 1, q + 1 + |m.key|)), NodeAt(m.value, gap, ValueAt(m, gap, q))))
    decreases m
  {
    hide Run, Print, At, Follow, NodeAt, Skippable, BlankLayout, ColonAt;
    var z' := AddChild(z, Item(String, q + 1, q + 1 + |m.key|));
    var c := q + |Quoted(m.key)|;
    MemberSplit(js, len, q, m, gap);
    RunString(js, len, q, z, m.key);
    ColonText(gap, c);
    RunBlanks(js, len, c, z', ColonAt(gap, c), 0);
    RunValue(js, len, ValueAt(m, gap, q), z', m.value, gap);
  }

  // ----- rebuilding a tree from types and sizes

  /** The node whose tokens start at index `i`, and the index after them. */
  function ReadNode(ts: seq<Token>, i: nat): (r: Option<(Node, nat)>)
    ensures r.Some? ==> i < r.value.1 <= |ts|
    decreases |ts| - i, 0
  {
    if i >= |ts| || ts[i].start < 0 || ts[i].end < 0 || ts[i].size < 0 then None
    else if Container(ts[i].kind) then
      match ReadNodes(ts, i + 1, ts[i].size)
      case None => None
      case Some((kids, next)) => Some((Branch(ts[i].kind, ts[i].start, ts[i].end, kids), next))
    else Some((Item(ts[i].kind, ts[i].start, ts[i].end), i + 1))
  }

  /** The next `count` sibling nodes. */
  function ReadNodes(ts: seq<Token>, i: nat, count: nat): (r: Option<(seq<Node>, nat)>)
    requires i <= |ts|
    ensures r.Some? ==> i <= r.value.1 <= |ts|
    decreases |ts| - i, 1
  {
    if count == 0 then Some(([], i))
    else
      match ReadNode(ts, i)
      case None => None
      case Some((n, next)) =>
        match ReadNodes(ts, next, count - 1)
        case None => None
        case Some((ns, last)) => Some(([n] + ns, last))
  }

  /** All roots of a token array. */
  function ReadForest(ts: seq<Token>, i: nat): Option<seq<Node>>
    decreases |ts| - i
  {
    if i >= |ts| then Some([])
    else
      match ReadNode(ts, i)
      case None => None
      case Some((n, next)) =>
        match ReadForest(ts, next)
        case None => None
        case Some(ns) => Some([n] + ns)
  }

  predicate Slice(ts: seq<Token>, i: nat, part: seq<Token>) {
    i + |part| <= |ts| && ts[i..i + |part|] == part
  }

  lemma SliceSplit(ts: seq<Token>, i: nat, a: seq<Token>, b: seq<Token>)
    requires Slice(ts, i, a + b)
    ensures Slice(ts, i, a) && Slice(ts, i + |a|, b)
  {
    var s := ts[i..i + |a + b|];
    assert ts[i..i + |a|] == s[..|a|] == a;
    assert ts[i + |a|..i + |a| + |b|] == s[|a|..] == b;
  }

  /** Leaves carry scalar types and branches container types. */
  ghost predicate Kinded(n: Node)
    decreases n
  {
    match n
    case Item(kind, _, _) => !Container(kind)
    case Branch(kind, _, _, kids) => Container(kind) && forall k :: k in kids ==> Kinded(k)
  }

  lemma {:induction false} ForestCons(ns: seq<Node>)
    requires ns != []
    ensures FlatForest(ns) == FlatNode(ns[0]) + FlatForest(ns[1..])
  {
    assert ns == [ns[0]] + ns[1..];
    ForestConcat([ns[0]], ns[1..]);
    ForestSnoc([], ns[0]);
    assert [] + [ns[0]] == [ns[0]];
  }

  lemma {:induction false} ReadsNode(ts: seq<Token>, i: nat, n: Node)
    requires Slice(ts, i, FlatNode(n)) && Kinded(n)
    ensures ReadNode(ts, i) == Some((n, i + |FlatNode(n)|))
    decreases n, 0
  {
    assert ts[i] == ts[i..i + |FlatNode(n)|][0] == FlatNode(n)[0];
    if n.Branch? {
      SliceSplit(ts, i, FlatNode(n)[..1], FlatForest(n.kids));
      ReadsNodes(ts, i + 1, n.kids);
    }
  }

  lemma {:induction false} ReadsNodes(ts: seq<Token>, i: nat, ns: seq<Node>)
    requires Slice(ts, i, FlatForest(ns)) && forall n :: n in ns ==> Kinded(n)
    ensures ReadNodes(ts, i, |ns|) == Some((ns, i + |FlatForest(ns)|))
    decreases ns, 1
  {
    hide ReadNode, FlatForest, FlatNode, Slice, Kinded;
    ForestEmpty();
    if ns != [] {
      ForestCons(ns);
      SliceSplit(ts, i, FlatNode(ns[0]), FlatForest(ns[1..]));
      ReadsNode(ts, i, ns[0]);
      ReadsNodes(ts, i + |FlatNode(ns[0])|, ns[1..]);
      assert ns == [ns[0]] + ns[1..];
    }
  }

  lemma {:induction false} ReadsForest(ts: seq<Token>, i: nat, ns: seq<Node>)
    requires Slice(ts, i, FlatForest(ns)) && i + |FlatForest(ns)| == |ts|
    requires forall n :: n in ns ==> Kinded(n)
    ensures ReadForest(ts, i) == Some(ns)
    decreases ns
  {
    if ns != [] {
      ForestCons(ns);
      SliceSplit(ts, i, FlatNode(ns[0]), FlatForest(ns[1..]));
      ReadsNode(ts, i, ns[0]);
      ReadsForest(ts, i + |FlatNode(ns[0])|, ns[1..]);
      assert ns == [ns[0]] + ns[1..];
    }
  }

  lemma {:induction false} PlacedIsKinded(n: Node)
    requires PlacedNode(n)
    ensures Kinded(n)
    decreases n
  {
    if n.Branch? { PlacedForestKinded(n.kids, n.start + 1, n.end - 1); }
  }

  lemma {:induction false} PlacedForestKinded(ns: seq<Node>, lo: int, hi: int)
    requires PlacedForest(ns, lo, hi)
    ensures forall n :: n in ns ==> Kinded(n)
    decreases ns
  {
    if ns != [] {
      var last := ns[|ns| - 1];
      PlacedForestKinded(ns[..|ns| - 1], lo, Lo(last));
      PlacedIsKinded(last);
      assert ns == ns[..|ns| - 1] + [last];
    }
  }

  /** After every successful parse, reading types and sizes front to back rebuilds the tree that was parsed. */
  lemma {:induction false} RebuildsTree(js: string, len: nat)
    requires Readable(js, len) && Run(js, len, 0, Root([])).status == Done
    ensures var o := Run(js, len, 0, Root([]));
            o.zip.Root? && ReadForest(Flat(o.zip), 0) == Some(o.zip.kids)
  {
    var o := Run(js, len, 0, Root([]));
    SizeAccounting(js, len);
    RunIsAfter(js, len);
    AfterPlaced(js, len, len);
    PlacedForestKinded(o.zip.kids, 0, o.pos);
    assert Flat(o.zip)[0..|Flat(o.zip)|] == Flat(o.zip);
    ReadsForest(Flat(o.zip), 0, o.zip.kids);
  }

  // ----- reading a value back from a tree

  function ToJson(js: string, n: Node): Option<Json>
    decreases n
  {
    match n
    case Item(kind, start, end) =>
      if !(start <= end <= |js|) then None
      else if kind == String then Some(Str(js[start..end]))
      else Some(Prim(js[start..end]))
    case Branch(kind, _, _, kids) =>
      if kind == Array then
        match ToItems(js, kids)
        case None => None
        case Some(items) => Some(Arr(items))
      else
        match ToMembers(js, kids)
        case None => None
        case Some(members) => Some(Obj(members))
  }

  function ToItems(js: string, kids: seq<Node>): Option<seq<Json>>
    decreases kids
  {
    if kids == [] then Some([])
    else
      match (ToItems(js, kids[..|kids| - 1]), ToJson(js, kids[|kids| - 1]))
      case (Some(items), Some(last)) => Some(items + [last])
      case _ => None
  }

  function ToMembers(js: string, kids: seq<Node>): Option<seq<Member>>
    decreases kids
  {
    if kids == [] then Some([])
    else if |kids| == 1 then None
    else
      match (ToMembers(js, kids[..|kids| - 2]), ToJson(js, kids[|kids| - 2]), ToJson(js, kids[|kids| - 1]))
      case (Some(members), Some(Str(key)), Some(value)) => Some(members + [Member(key, value)])
      case _ => None
  }

  lemma {:induction false} ReadsString(js: string, len: nat, p: nat, body: string)
    requires At(js, len, p, Quoted(body))
    ensures ToJson(js, Item(String, p + 1, p + 1 + |body|)) == Some(Str(body))
  {
    assert Quoted(body) == "\"" + (body + "\"");
    AtSplit(js, len, p, "\"", body + "\"");
    AtSplit(js, len, p + 1, body, "\"");
  }

  lemma {:induction false} ReadsValue(js: string, len: nat, p: nat, j: Json, gap: Layout)
    requires Readable(js, len) && At(js, len, p, Print(j, gap, p))
    ensures ToJson(js, NodeAt(j, gap, p)) == Some(j)
    decreases j
  {
    hide PrintItems, PrintMembers, ItemsAt, MembersAt, Enclosed, Inside, ToItems, ToMembers;
    match j {
      case Prim(text) =>
      case Str(body) => ReadsString(js, len, p, body);
      case Arr(items) =>
        InsideText(js, len, p, Array, PrintItems(items, gap, Inside(gap, p)), gap);
        ReadsItems(js, len, Inside(gap, p), items, gap);
      case Obj(members) =>
        InsideText(js, len, p, Object, PrintMembers(members, gap, Inside(gap, p)), gap);
        ReadsMembers(js, len, Inside(gap, p), members, gap);
    }
  }

  lemma {:induction false} ReadsItems(js: string, len: nat, p: nat, items: seq<Json>, gap: Layout)
    requires Readable(js, len) && At(js, len, p, PrintItems(items, gap, p))
    ensures ToItems(js, ItemsAt(items, gap, p)) == Some(items)
    decreases items
  {
    hide Print, PrintItems, ItemsAhead, At, NodeAt, CommaAt, ToJson;
    if items != [] {
      var ahead, last := items[..|items| - 1], items[|items| - 1];
      ItemsSplit(js, len, p, items, gap);
      ReadsItems(js, len, p, ahead, gap);
      ReadsValue(js, len, p + |ItemsAhead(ahead, gap, p)|, last, gap);
      var kids := ItemsAt(items, gap, p);
      assert kids[..|kids| - 1] == ItemsAt(ahead, gap, p);
      assert items == ahead + [last];
    }
  }

  lemma {:induction false} ReadsMembers(js: string, len: nat, p: nat, members: seq<Member>, gap: Layout)
    requires Readable(js, len) && At(js, len, p, PrintMembers(members, gap, p))
    ensures ToMembers(js, MembersAt(members, gap, p)) == Some(members)
    decreases members
  {
    hide Print, PrintMembers, MembersAhead, MemberText, Quoted, ColonAt, ValueAt, At, NodeAt, CommaAt, ToJson;
    if members != [] {
      var ahead, last := members[..|members| - 1], members[|members| - 1];
      var q := p + |MembersAhead(ahead, gap, p)|;
      MembersSplit(js, len, p, members, gap);
      MemberSplit(js, len, q, last, gap);
      ReadsMembers(js, len, p, ahead, gap);
      ReadsString(js, len, q, last.key);
      ReadsValue(js, len, ValueAt(last, gap, q), last.value, gap);
      var kids := MembersAt(members, gap, p);
      assert kids[..|kids| - 2] == MembersAt(ahead, gap, p);
      assert members == ahead + [last];
    }
  }

  // ----- counting nodes

  lemma {:induction false} CountsNode(j: Json, gap: Layout, p: nat)
    ensures |FlatNode(NodeAt(j, gap, p))| == NodeCount(j)
    decreases j
  {
    hide FlatForest, ItemsAt, MembersAt, ItemsCount, MembersCount, Enclosed, Inside;
    match j {
      case Prim(_) =>
      case Str(_) =>
      case Arr(items) => CountsItems(items, gap, Inside(gap, p));
      case Obj(members) => CountsMembers(members, gap, Inside(gap, p));
    }
  }

  lemma {:induction false} CountsItems(items: seq<Json>, gap: Layout, p: nat)
    ensures |FlatForest(ItemsAt(items, gap, p))| == ItemsCount(items)
    decreases items
  {
    hide FlatForest, FlatNode, NodeAt, ItemsAhead, NodeCount;
    ForestEmpty();
    if items != [] {
      var ahead, last := items[..|items| - 1], items[|items| - 1];
      var q := p + |ItemsAhead(ahead, gap, p)|;
      CountsItems(ahead, gap, p);
      CountsNode(last, gap, q);
      ForestSnoc(ItemsAt(ahead, gap, p), NodeAt(last, gap, q));
    }
  }

  lemma {:induction false} CountsMembers(members: seq<Member>, gap: Layout, p: nat)
    ensures |FlatForest(MembersAt(members, gap, p))| == MembersCount(members)
    decreases members
  {
    hide FlatForest, NodeAt, MembersAhead, NodeCount, ValueAt;
    ForestEmpty();
    if members != [] {
      var ahead, last := members[..|members| - 1], members[|members| - 1];
      var q := p + |MembersAhead(ahead, gap, p)|;
      var key := Item(String, q + 1, q + 1 + |last.key|);
      var v := ValueAt(last, gap, q);
      CountsMembers(ahead, gap, p);
      CountsNode(last.value, gap, v);
      ForestSnoc(MembersAt(ahead, gap, p), key);
      ForestSnoc(MembersAt(ahead, gap, p) + [key], NodeAt(last.value, gap, v));
      assert MembersAt(members, gap, p) == MembersAt(ahead, gap, p) + [key] + [NodeAt(last.value, gap, v)];
    }
  }

  /** A whole text adds exactly the node of its value. */
  lemma {:induction false} RunDocument(js: string, len: nat, j: Json, gap: Layout)
    requires Readable(js, len) && WellFormed(j) && BlankLayout(gap)
    requires At(js, len, 0, Document(j, gap)) && len == |Document(j, gap)|
    ensures At(js, len, |gap(0)|, Print(j, gap, |gap(0)|))
    ensures Run(js, len, 0, Root([])) == Outcome(Done, len, Root([NodeAt(j, gap, |gap(0)|)]))
  {
    hide Run, At, Print, NodeAt, Blanks, Skippable, Follow, WellFormed;
    var p := |gap(0)|;
    var text := Print(j, gap, p);
    var last := gap(p + |text|);
    AtSplit(js, len, 0, gap(0), text + last);
    AtSplit(js, len, p, text, last);
    BlanksSkip(gap(0));
    BlanksSkip(last);
    EndFollows(js, len, p + |text|, last);
    RunBlanks(js, len, 0, Root([]), gap(0), 0);
    RunValue(js, len, p, Root([]), j, gap);
    var n := NodeAt(j, gap, p);
    assert AddChild(Root([]), n) == Root([n]);
    RunBlanks(js, len, p + |text|, Root([n]), last, 0);
    RunStep(js, len, len, Root([n]));
  }

  lemma BlanksSkip(gap: string)
    requires Blanks(gap)
    ensures Skippable(gap)
  {
  }

  lemma EndFollows(js: string, len: nat, p: nat, gap: string)
    requires Readable(js, len) && Blanks(gap) && At(js, len, p, gap) && p + |gap| == len
    ensures Follow(js, len, p)
  {
    if gap != "" { AtChar(js, len, p, gap, 0); }
  }

  /**
    Every well-formed value, printed with any blanks at every place that allows them and
    tokenized by a fresh parser, whatever stands behind it: the parse succeeds, finds one
    token per node in pre-order with the node's source range, and reading the tokens back
    gives the value.
   */
  lemma {:induction false} RoundTrip(j: Json, gap: Layout, js: string, len: nat)
    requires WellFormed(j) && BlankLayout(gap)
    requires Readable(js, len) && js[..len] == Document(j, gap)
    ensures var n := NodeAt(j, gap, |gap(0)|);
            var o := Run(js, len, 0, Root([]));
            && o == Outcome(Done, len, Root([n]))
            && Flat(o.zip) == FlatNode(n)
            && |Flat(o.zip)| == NodeCount(j)
            && ReadForest(Flat(o.zip), 0) == Some([n])
            && ToJson(js, n) == Some(j)
  {
    hide Document, NodeAt, FlatForest, FlatNode, ReadForest, ToJson, WellFormed, NodeCount, BlankLayout, Print;
    assert js[0..len] == Document(j, gap);
    RunDocument(js, len, j, gap);
    var n := NodeAt(j, gap, |gap(0)|);
    ForestSnoc([], n);
    assert [] + [n] == [n];
    ForestEmpty();
    CountsNode(j, gap, |gap(0)|);
    RebuildsTree(js, len);
    ReadsValue(js, len, |gap(0)|, j, gap);
  }
}
