/**
  What the result codes mean in terms of the text alone.  A value that is cut short is
  PART at every cut; an ill-formed one is INVAL at the character that makes it so; and
  every value of RFC 8259, with its characters spelled out here, is accepted.
 */
module JsmnVerdict {
  import opened JsmnLexer
  import opened JsmnTree
  import opened JsmnMachine
  import opened JsmnStructure
  import opened JsmnRoundTrip
  import opened Basics

  // ----- the values of RFC 8259

  /** Sections 3 and 6: a literal name, or any run of the characters of numbers. */
  predicate RfcPrimitive(text: string) {
    || text == "true" || text == "false" || text == "null"
    || (text != "" && forall i :: 0 <= i < |text| ==> text[i] in "0123456789+-.eE")
  }

  /** Section 7: unescaped characters, the eight short escapes, and four hexadecimal digits. */
  predicate RfcString(body: string)
    decreases |body|
  {
    if body == "" then true
    else if body[0] == '\\' then
      if |body| >= 2 && body[1] in "\"\\/bfnrt" then RfcString(body[2..])
      else
        && |body| >= 6 && body[1] == 'u' && (forall i :: 2 <= i < 6 ==> body[i] in "0123456789abcdefABCDEF")
        && RfcString(body[6..])
    else body[0] as int >= 0x20 && body[0] != '\"' && RfcString(body[1..])
  }

  predicate RfcValue(j: Json)
    decreases j
  {
    match j
    case Prim(text) => RfcPrimitive(text)
    case Str(body) => RfcString(body)
    case Arr(items) => forall x :: x in items ==> RfcValue(x)
    case Obj(members) => forall m :: m in members ==> RfcString(m.key) && RfcValue(m.value)
  }

  /** Section 2: the characters of insignificant whitespace. */
  ghost predicate RfcLayout(gap: Layout) {
    forall p: nat, i: nat :: i < |gap(p)| ==> gap(p)[i] in " \t\n\r"
  }

  lemma RfcPrimitiveOk(text: string)
    requires RfcPrimitive(text)
    ensures PrimOk(text)
  {
    forall i | 0 <= i < |text| ensures Printable(text[i]) && !Delimiter(text[i]) {
      NumberChar(text[i]);
    }
    NumberChar(text[0]);
  }

  lemma NumberChar(c: char)
    ensures c in "0123456789+-.eE" ==> Printable(c) && !Delimiter(c) && c != '{' && c != '[' && c != '\"'
  {
  }

  lemma {:induction false} RfcStringOk(body: string)
    requires RfcString(body)
    ensures WellEscaped(body)
    decreases |body|
  {
    if body != "" {
      if body[0] != '\\' {
        RfcStringOk(body[1..]);
      } else if body[1] in "\"\\/bfnrt" {
        ShortEscape(body[1]);
        RfcStringOk(body[2..]);
      } else {
        forall i | 2 <= i < 6 ensures Hex(body[i]) { HexDigit(body[i]); }
        RfcStringOk(body[6..]);
      }
    }
  }

  /** The accepted short escapes are exactly those of the standard. */
  lemma ShortEscape(c: char)
    ensures SimpleEscape(c) <==> c in "\"\\/bfnrt"
  {
  }

  /** The accepted hexadecimal digits are exactly those of the standard. */
  lemma HexDigit(c: char)
    ensures Hex(c) <==> c in "0123456789abcdefABCDEF"
  {
    assert c in "0123456789" <==> '0' <= c <= '9';
    assert c in "abcdef" <==> 'a' <= c <= 'f';
    assert c in "ABCDEF" <==> 'A' <= c <= 'F';
    assert "0123456789abcdefABCDEF" == "0123456789" + "abcdef" + "ABCDEF";
  }

  lemma {:induction false} RfcWellFormed(j: Json)
    requires RfcValue(j)
    ensures WellFormed(j)
    decreases j
  {
    match j {
      case Prim(text) => RfcPrimitiveOk(text);
      case Str(body) => RfcStringOk(body);
      case Arr(items) => forall x | x in items ensures WellFormed(x) { RfcWellFormed(x); }
      case Obj(members) =>
        forall m | m in members ensures WellEscaped(m.key) && WellFormed(m.value) {
          RfcStringOk(m.key);
          RfcWellFormed(m.value);
        }
    }
  }

  lemma RfcBlanks(gap: Layout)
    requires RfcLayout(gap)
    ensures BlankLayout(gap)
  {
    forall p: nat ensures Blanks(gap(p)) {
      forall i | 0 <= i < |gap(p)| ensures BlankChar(gap(p)[i]) {
        assert gap(p)[i] in " \t\n\r";
      }
    }
  }

  /** Every value of the standard, laid out in any way it allows, is parsed and read back. */
  lemma {:induction false} RfcRoundTrip(j: Json, gap: Layout, js: string, len: nat)
    requires RfcValue(j) && RfcLayout(gap)
    requires Readable(js, len) && js[..len] == Document(j, gap)
    ensures var n := NodeAt(j, gap, |gap(0)|);
            var o := Run(js, len, 0, Root([]));
            && o == Outcome(Done, len, Root([n]))
            && |Flat(o.zip)| == NodeCount(j)
            && ToJson(js, n) == Some(j)
  {
    hide Document, NodeAt, FlatForest, FlatNode, ReadForest, ToJson, NodeCount, RfcValue, RfcLayout, WellFormed, BlankLayout;
    RfcWellFormed(j);
    RfcBlanks(gap);
    RoundTrip(j, gap, js, len);
  }

  /** What any character does behind a digit: ends the primitive, is refused, or goes on with it. */
  lemma BehindDigit(c: char, js: string)
    requires c != '\0' && js == ['1', c, '\0']
    ensures ScanPrimitive(js, 2, 0)
         == if c in ":\t\r\n ,]}" then Ends(1)
            else if c as int < 32 || c as int > 126 then Bad
            else Ends(2)
  {
    DelimiterChar(c);
    assert ScanPrimitive(js, 2, 1) == if Delimiter(c) then Ends(1) else if !Printable(c) then Bad else ScanPrimitive(js, 2, 2);
  }

  lemma DelimiterChar(c: char)
    ensures Delimiter(c) <==> c in ":\t\r\n ,]}"
  {
  }

  // ----- cut short

  lemma AtShorter(js: string, len: nat, len': nat, p: nat, s: string)
    requires At(js, len, p, s) && p + |s| <= len' <= len
    ensures At(js, len', p, s)
  {
  }

  lemma {:induction false} StringCut(js: string, m: nat, len: nat, p: nat, body: string)
    requires Readable(js, len) && m <= len && At(js, len, p, body) && WellEscaped(body) && m <= p + |body|
    ensures ScanString(js, m, p).Cut?
    decreases |body|
  {
    if p < m {
      AtChar(js, len, p, body, 0);
      var step := if body[0] != '\\' then 1 else if SimpleEscape(body[1]) then 2 else 6;
      if body[0] == '\\' { AtChar(js, len, p, body, 1); }
      if step == 6 { HexText(js, len, p, body); }
      assert body == body[..step] + body[step..];
      AtSplit(js, len, p, body[..step], body[step..]);
      StringCut(js, m, len, p + step, body[step..]);
    }
  }

  lemma {:induction false} PrimitiveCut(js: string, m: nat, len: nat, p: nat, text: string, i: nat)
    requires Readable(js, len) && m <= len && At(js, len, p, text) && PrimOk(text) && p + i <= m <= p + |text|
    ensures ScanPrimitive(js, m, p + i) == Ends(m)
    decreases m - (p + i)
  {
    if p + i < m {
      AtChar(js, len, p, text, i);
      PrimitiveCut(js, m, len, p, text, i + 1);
    }
  }

  /** Inside a container, running out of text among blanks, commas or colons leaves it open. */
  lemma {:induction false} StopsOpen(js: string, m: nat, len: nat, p: nat, z: Zip, s: string)
    requires Readable(js, len) && m <= len && z.In? && At(js, len, p, s) && Skippable(s) && p <= m <= p + |s|
    ensures Run(js, m, p, z).status == Partial
  {
    hide Run;
    var part := s[..m - p];
    assert s == part + s[m - p..];
    AtSplit(js, len, p, part, s[m - p..]);
    AtShorter(js, len, m, p, part);
    RunBlanks(js, m, p, z, part, 0);
    RunStep(js, m, m, z);
  }

  lemma {:induction false} TextCut(js: string, m: nat, len: nat, p: nat, z: Zip, body: string)
    requires Readable(js, len) && At(js, len, p, Quoted(body)) && WellEscaped(body)
    requires p < m < p + |Quoted(body)| && m <= len
    ensures Lex(js, m, p) == Stuck(Partial)
    ensures Run(js, m, p, z).status == Partial && Count(js, m, p).status == Partial
  {
    hide WellEscaped, ScanPrimitive;
    AtChar(js, len, p, Quoted(body), 0);
    assert Quoted(body) == "\"" + (body + "\"");
    AtSplit(js, len, p, "\"", body + "\"");
    AtSplit(js, len, p + 1, body, "\"");
    StringCut(js, m, len, p + 1, body);
  }

  lemma {:induction false} NumberCut(js: string, m: nat, len: nat, p: nat, z: Zip, text: string)
    requires Readable(js, len) && z.In? && At(js, len, p, text) && PrimOk(text) && p < m <= p + |text| && m <= len
    ensures Run(js, m, p, z).status == Partial
  {
    hide ScanString;
    AtChar(js, len, p, text, 0);
    PrimitiveCut(js, m, len, p, text, 0);
  }

  lemma {:induction false} OpensOnly(js: string, m: nat, p: nat, z: Zip, kind: TokenType)
    requires Readable(js, m) && Container(kind) && p < m && js[p] == OpenText(kind)[0]
    ensures Run(js, m, p, z) == Run(js, m, p + 1, In(z, kind, p, []))
  {
    hide ScanString, ScanPrimitive;
  }

  /** A cut in the brackets or blanks of a container, given what a cut inside does. */
  lemma {:induction false} EnclosedCut(js: string, m: nat, len: nat, p: nat, z: Zip, kind: TokenType,
                                       text: string, gap: Layout, kids: seq<Node>)
    requires Readable(js, len) && m <= len && Container(kind) && BlankLayout(gap)
    requires At(js, len, p, Enclosed(kind, text, gap, p)) && p < m < p + |Enclosed(kind, text, gap, p)|
    requires Inside(gap, p) < m <= Inside(gap, p) + |text| ==> Run(js, m, Inside(gap, p), In(z, kind, p, [])).status == Partial
    requires m > Inside(gap, p) + |text| ==>
               Run(js, m, Inside(gap, p), In(z, kind, p, [])) == Run(js, m, Inside(gap, p) + |text|, In(z, kind, p, [] + kids))
    ensures Run(js, m, p, z).status == Partial
  {
    hide Run, At, Blanks, Skippable, Follow, BlankLayout, Bracketed, CloseText;
    var a, q := gap(p + 1), Inside(gap, p);
    var b := gap(q + |text|);
    LayoutSkips(gap, p + 1);
    LayoutSkips(gap, q + |text|);
    BracketedSplit(js, len, p, kind, a, text, b);
    AtChar(js, len, p, OpenText(kind) + a, 0);
    AtSplit(js, len, p, OpenText(kind), a);
    AtSplit(js, len, q + |text|, b, CloseText(kind));
    OpensOnly(js, m, p, z, kind);
    if m <= q {
      StopsOpen(js, m, len, p + 1, In(z, kind, p, []), a);
    } else {
      AtShorter(js, len, m, p + 1, a);
      RunBlanks(js, m, p + 1, In(z, kind, p, []), a, 0);
      if m > q + |text| {
        StopsOpen(js, m, len, q + |text|, In(z, kind, p, [] + kids), b);
      }
    }
  }

  /** What stands behind the inside of a container ends whatever is before it. */
  lemma InsideFollows(js: string, m: nat, len: nat, p: nat, kind: TokenType, text: string, gap: Layout)
    requires Readable(js, len) && m <= len && BlankLayout(gap)
    requires At(js, len, p, Enclosed(kind, text, gap, p))
    ensures Follow(js, m, Inside(gap, p) + |text|)
  {
    hide At, BlankLayout;
    InsideText(js, len, p, kind, text, gap);
  }

  /** Wherever a value is cut, it is unfinished; a primitive only if it stands in a container. */
  lemma {:induction false} ValueCut(js: string, m: nat, len: nat, p: nat, z: Zip, j: Json, gap: Layout)
    requires Readable(js, len) && m <= len && WellFormed(j) && BlankLayout(gap) && (z.In? || !j.Prim?)
    requires At(js, len, p, Print(j, gap, p)) && p < m < p + |Print(j, gap, p)|
    ensures Run(js, m, p, z).status == Partial
    decreases j
  {
    hide Run, At, PrintItems, PrintMembers, ItemsAt, MembersAt, BlankLayout, Enclosed, Inside, Follow;
    match j {
      case Prim(text) => NumberCut(js, m, len, p, z, text);
      case Str(body) => TextCut(js, m, len, p, z, body);
      case Arr(items) =>
        var q := Inside(gap, p);
        var text, kids := PrintItems(items, gap, q), ItemsAt(items, gap, q);
        InsideText(js, len, p, Array, text, gap);
        InsideFollows(js, m, len, p, Array, text, gap);
        if q < m <= q + |text| {
          ItemsCut(js, m, len, q, In(z, Array, p, []), items, gap);
        } else if m > q + |text| {
          AtShorter(js, len, m, q, text);
          RunItems(js, m, q, In(z, Array, p, []), items, gap);
        }
        EnclosedCut(js, m, len, p, z, Array, text, gap, kids);
      case Obj(members) =>
        var q := Inside(gap, p);
        var text, kids := PrintMembers(members, gap, q), MembersAt(members, gap, q);
        InsideText(js, len, p, Object, text, gap);
        InsideFollows(js, m, len, p, Object, text, gap);
        if q < m <= q + |text| {
          MembersCut(js, m, len, q, In(z, Object, p, []), members, gap);
        } else if m > q + |text| {
          AtShorter(js, len, m, q, text);
          RunMembers(js, m, q, In(z, Object, p, []), members, gap);
        }
        EnclosedCut(js, m, len, p, z, Object, text, gap, kids);
    }
  }

  /** A value that ends exactly at the cut is whole, but the container around it is not. */
  lemma {:induction false} ValueUpTo(js: string, m: nat, len: nat, p: nat, z: Zip, j: Json, gap: Layout)
    requires Readable(js, len) && m <= len && WellFormed(j) && BlankLayout(gap) && z.In?
    requires At(js, len, p, Print(j, gap, p)) && m == p + |Print(j, gap, p)|
    ensures Run(js, m, p, z).status == Partial
  {
    hide Run, Print, NodeAt, BlankLayout, WellFormed;
    AtShorter(js, len, m, p, Print(j, gap, p));
    RunValue(js, m, p, z, j, gap);
    RunStep(js, m, m, AddChild(z, NodeAt(j, gap, p)));
  }

  lemma CommaFollows(js: string, m: nat, len: nat, c: nat, gap: Layout)
    requires Readable(js, len) && m <= len && BlankLayout(gap) && At(js, len, c, CommaAt(gap, c))
    ensures Skippable(CommaAt(gap, c)) && Follow(js, m, c)
  {
    CommaText(js, len, c, gap);
  }

  lemma {:induction false} ItemsCut(js: string, m: nat, len: nat, p: nat, z: Zip, items: seq<Json>, gap: Layout)
    requires Readable(js, len) && m <= len && BlankLayout(gap) && z.In? && forall x :: x in items ==> WellFormed(x)
    requires At(js, len, p, PrintItems(items, gap, p)) && p <= m <= p + |PrintItems(items, gap, p)|
    ensures Run(js, m, p, z).status == Partial
    decreases items
  {
    hide Run, Print, At, Follow, NodeAt, CommaAt, BlankLayout, Skippable, WellFormed;
    if items == [] {
      RunStep(js, m, p, z);
    } else {
      var ahead, last := items[..|items| - 1], items[|items| - 1];
      var q, c := p + |ItemsAhead(ahead, gap, p)|, p + |PrintItems(ahead, gap, p)|;
      ItemsSplit(js, len, p, items, gap);
      assert last in items;
      if m <= c {
        ItemsCut(js, m, len, p, z, ahead, gap);
      } else {
        var z' := z.(kids := z.kids + ItemsAt(ahead, gap, p));
        if ahead != [] {
          CommaFollows(js, m, len, c, gap);
          AtShorter(js, len, m, p, PrintItems(ahead, gap, p));
          RunItems(js, m, p, z, ahead, gap);
        } else {
          assert z.kids + ItemsAt(ahead, gap, p) == z.kids;
        }
        if m <= q {
          StopsOpen(js, m, len, c, z', CommaAt(gap, c));
        } else {
          if ahead != [] {
            AtShorter(js, len, m, c, CommaAt(gap, c));
            RunBlanks(js, m, c, z', CommaAt(gap, c), 0);
          }
          if m < q + |Print(last, gap, q)| {
            ValueCut(js, m, len, q, z', last, gap);
          } else {
            ValueUpTo(js, m, len, q, z', last, gap);
          }
        }
      }
    }
  }

  lemma {:induction false} MembersCut(js: string, m: nat, len: nat, p: nat, z: Zip, members: seq<Member>, gap: Layout)
    requires Readable(js, len) && m <= len && BlankLayout(gap) && z.In?
    requires forall x :: x in members ==> WellEscaped(x.key) && WellFormed(x.value)
    requires At(js, len, p, PrintMembers(members, gap, p)) && p <= m <= p + |PrintMembers(members, gap, p)|
    ensures Run(js, m, p, z).status == Partial
    decreases members
  {
    hide Run, Print, At, Follow, NodeAt, CommaAt, BlankLayout, Skippable, WellFormed, WellEscaped, MemberText, ValueAt;
    if members == [] {
      RunStep(js, m, p, z);
    } else {
      var ahead, last := members[..|members| - 1], members[|members| - 1];
      var q, c := p + |MembersAhead(ahead, gap, p)|, p + |PrintMembers(ahead, gap, p)|;
      MembersSplit(js, len, p, members, gap);
      assert last in members;
      if m <= c {
        MembersCut(js, m, len, p, z, ahead, gap);
      } else {
        var z' := z.(kids := z.kids + MembersAt(ahead, gap, p));
        if ahead != [] {
          CommaFollows(js, m, len, c, gap);
          AtShorter(js, len, m, p, PrintMembers(ahead, gap, p));
          RunMembers(js, m, p, z, ahead, gap);
        } else {
          assert z.kids + MembersAt(ahead, gap, p) == z.kids;
        }
        if m <= q {
          StopsOpen(js, m, len, c, z', CommaAt(gap, c));
        } else {
          if ahead != [] {
            AtShorter(js, len, m, c, CommaAt(gap, c));
            RunBlanks(js, m, c, z', CommaAt(gap, c), 0);
          }
          MemberCut(js, m, len, q, z', last, gap);
        }
      }
    }
  }

  lemma {:induction false} MemberCut(js: string, m: nat, len: nat, q: nat, z: Zip, x: Member, gap: Layout)
    requires Readable(js, len) && m <= len && BlankLayout(gap) && z.In? && WellEscaped(x.key) && WellFormed(x.value)
    requires At(js, len, q, MemberText(x, gap, q)) && q < m <= q + |MemberText(x, gap, q)|
    ensures Run(js, m, q, z).status == Partial
    decreases x
  {
    hide Run, Print, At, NodeAt, BlankLayout, Skippable, ColonAt, WellFormed, WellEscaped, Quoted;
    var c, v := q + |Quoted(x.key)|, ValueAt(x, gap, q);
    MemberSplit(js, len, q, x, gap);
    if m < c {
      TextCut(js, m, len, q, z, x.key);
    } else {
      var z' := AddChild(z, Item(String, q + 1, q + 1 + |x.key|));
      AtShorter(js, len, m, q, Quoted(x.key));
      RunString(js, m, q, z, x.key);
      ColonText(gap, c);
      if m <= v {
        StopsOpen(js, m, len, c, z', ColonAt(gap, c));
      } else {
        AtShorter(js, len, m, c, ColonAt(gap, c));
        RunBlanks(js, m, c, z', ColonAt(gap, c), 0);
        if m < v + |Print(x.value, gap, v)| {
          ValueCut(js, m, len, v, z', x.value, gap);
        } else {
          ValueUpTo(js, m, len, v, z', x.value, gap);
        }
      }
    }
  }

  /**
    A string, array or object, laid out in any way and cut anywhere strictly inside, is PART; for a string
    also when only counting.
   */
  lemma {:induction false} CutIsPartial(j: Json, gap: Layout, js: string, len: nat, m: nat)
    requires WellFormed(j) && BlankLayout(gap) && !j.Prim?
    requires Readable(js, len) && js[..len] == Document(j, gap)
    requires |gap(0)| < m < |gap(0)| + |Print(j, gap, |gap(0)|)|
    ensures m < len && Run(js, m, 0, Root([])).status == Partial
    ensures j.Str? ==> Count(js, m, 0).status == Partial
  {
    hide Run, Count, At, WellFormed, BlankLayout, Print, Blanks, Skippable;
    var p := |gap(0)|;
    var text := Print(j, gap, p);
    var last := gap(p + |text|);
    assert At(js, len, 0, Document(j, gap)) by { DocumentAt(js, len, Document(j, gap)); }
    AtSplit(js, len, 0, gap(0), text + last);
    AtSplit(js, len, p, text, last);
    LayoutSkips(gap, 0);
    AtShorter(js, len, m, 0, gap(0));
    RunBlanks(js, m, 0, Root([]), gap(0), 0);
    ValueCut(js, m, len, p, Root([]), j, gap);
    if j.Str? {
      CountBlanks(js, m, 0, gap(0), 0);
      StringDocument(j, gap, p);
      StringOk(j);
      TextCut(js, m, len, p, Root([]), j.body);
    }
  }

  lemma DocumentAt(js: string, len: nat, doc: string)
    requires len <= |js| && js[..len] == doc
    ensures At(js, len, 0, doc)
  {
    assert js[0..len] == js[..len];
  }

  lemma LayoutSkips(gap: Layout, p: nat)
    requires BlankLayout(gap)
    ensures Skippable(gap(p))
  {
    assert Blanks(gap(p));
  }

  lemma StringDocument(j: Json, gap: Layout, p: nat)
    requires j.Str?
    ensures Print(j, gap, p) == Quoted(j.body)
  {
  }

  lemma StringOk(j: Json)
    requires j.Str? && WellFormed(j)
    ensures WellEscaped(j.body)
  {
  }

  lemma {:induction false} CountBlanks(js: string, len: nat, p: nat, s: string, i: nat)
    requires Readable(js, len) && At(js, len, p, s) && Skippable(s) && i <= |s|
    ensures Count(js, len, p + i) == Count(js, len, p + |s|)
    decreases |s| - i
  {
    hide ScanString, ScanPrimitive, SkipHex, At;
    if i < |s| {
      AtChar(js, len, p, s, i);
      CountBlanks(js, len, p, s, i + 1);
    }
  }

  // ----- cut by a NUL

  lemma {:induction false} HexStopsAtNul(js: string, k: nat, i: nat, n: nat)
    requires i <= k < |js| && js[k] == '\0' && js[|js| - 1] == '\0'
    ensures SkipHex(js, i, n).Ends? ==> SkipHex(js, i, n).at <= k
    decreases n
  {
    if n > 0 && i < k && Hex(js[i]) { HexStopsAtNul(js, k, i + 1, n - 1); }
  }

  lemma {:induction false} StringStopsAtNul(js: string, len: nat, k: nat, i: nat)
    requires Readable(js, len) && i <= k < len && js[k] == '\0'
    ensures ScanString(js, len, i) == ScanString(js, k, i)
    decreases k - i
  {
    hide SkipHex;
    if i < k && js[i] != '\0' && js[i] != '\"' {
      if js[i] != '\\' {
        StringStopsAtNul(js, len, k, i + 1);
      } else if SimpleEscape(js[i + 1]) {
        StringStopsAtNul(js, len, k, i + 2);
      } else if js[i + 1] == 'u' && SkipHex(js, i + 2, 4).Ends? {
        HexStopsAtNul(js, k, i + 2, 4);
        StringStopsAtNul(js, len, k, SkipHex(js, i + 2, 4).at);
      }
    }
  }

  lemma {:induction false} PrimitiveStopsAtNul(js: string, len: nat, k: nat, i: nat)
    requires Readable(js, len) && i <= k < len && js[k] == '\0'
    ensures ScanPrimitive(js, len, i) == ScanPrimitive(js, k, i)
    decreases k - i
  {
    if i < k { PrimitiveStopsAtNul(js, len, k, i + 1); }
  }

  lemma LexStopsAtNul(js: string, len: nat, k: nat, p: nat)
    requires Readable(js, len) && p < k < len && js[k] == '\0' && js[p] != '\0'
    ensures Lex(js, len, p) == Lex(js, k, p)
  {
    hide ScanString, ScanPrimitive;
    StringStopsAtNul(js, len, k, p + 1);
    PrimitiveStopsAtNul(js, len, k, p);
  }

  /** A NUL inside the length ends the text there, for filling and for counting. */
  lemma {:induction false} NulEnds(js: string, len: nat, k: nat, p: nat, z: Zip)
    requires Readable(js, len) && p <= k < len && js[k] == '\0'
    ensures Run(js, len, p, z) == Run(js, k, p, z)
    ensures Count(js, len, p) == Count(js, k, p)
    decreases k - p
  {
    hide Lex, Shift;
    if p < k && js[p] != '\0' {
      LexStopsAtNul(js, len, k, p);
      var step := Lex(js, k, p);
      if step.Lexed? {
        NulEnds(js, len, k, step.next, z);
        if Shift(z, step.item, p).Some? { NulEnds(js, len, k, step.next, Shift(z, step.item, p).value); }
      }
    }
  }

  /** The first `k` characters of a body end in a backslash that opens an escape. */
  predicate OpenEscape(body: string, k: nat)
    requires WellEscaped(body) && k <= |body|
    decreases k
  {
    if k == 0 then false
    else if body[0] != '\\' then OpenEscape(body[1..], k - 1)
    else if k == 1 then true
    else if SimpleEscape(body[1]) then OpenEscape(body[2..], k - 2)
    else k >= 6 && OpenEscape(body[6..], k - 6)
  }

  lemma {:induction false} ScanToNul(js: string, len: nat, p: nat, body: string, k: nat)
    requires Readable(js, len) && WellEscaped(body) && k <= |body| && len == p + k == |js| - 1
    requires js[p..len] == body[..k]
    ensures ScanString(js, len, p) == if OpenEscape(body, k) then Bad else Cut
    decreases k
  {
    if k > 0 {
      assert js[p] == js[p..len][0] == body[0];
      if body[0] != '\\' {
        Later(js, p, len, body, k, 1);
        ScanToNul(js, len, p + 1, body[1..], k - 1);
      } else if k > 1 {
        assert js[p + 1] == js[p..len][1] == body[1];
        if SimpleEscape(body[1]) {
          Later(js, p, len, body, k, 2);
          ScanToNul(js, len, p + 2, body[2..], k - 2);
        } else {
          HexToNul(js, len, p, body, k);
          if k >= 6 {
            Later(js, p, len, body, k, 6);
            ScanToNul(js, len, p + 6, body[6..], k - 6);
          }
        }
      }
    }
  }

  lemma Later(js: string, p: nat, len: nat, body: string, k: nat, step: nat)
    requires p + k == len <= |js| && step <= k <= |body| && js[p..len] == body[..k]
    ensures js[p + step..len] == body[step..][..k - step]
  {
    assert js[p + step..len] == js[p..len][step..];
  }

  /** The digits of an escape run to their end or to the NUL. */
  lemma {:induction false} HexToNul(js: string, len: nat, p: nat, body: string, k: nat)
    requires Readable(js, len) && len == p + k == |js| - 1 && 2 <= k <= |body| && js[p..len] == body[..k]
    requires |body| >= 6 && forall i :: 2 <= i < 6 ==> Hex(body[i])
    ensures SkipHex(js, p + 2, 4) == Ends(if k >= 6 then p + 6 else len)
  {
    forall i | p + 2 <= i < p + 6 && i < len ensures Hex(js[i]) {
      assert js[i] == js[p..len][i - p] == body[i - p];
    }
    HexRun(js, len, p + 2, 4);
  }

  lemma {:induction false} HexRun(js: string, len: nat, p: nat, n: nat)
    requires p <= len == |js| - 1 && js[len] == '\0'
    requires forall i :: p <= i < p + n && i < len ==> Hex(js[i])
    ensures SkipHex(js, p, n) == Ends(Min(p + n, len))
    decreases n
  {
    if n > 0 && p < len {
      assert Hex(js[p]);
      HexRun(js, len, p + 1, n - 1);
    }
  }

  /** A string cut by a NUL instead is PART exactly if the cut is not right behind a backslash; there it is INVAL. */
  lemma {:induction false} NulCut(body: string, k: nat, js: string)
    requires WellEscaped(body) && k <= |body| && js == "\"" + body[..k] + "\0"
    ensures Run(js, k + 1, 0, Root([])).status == if OpenEscape(body, k) then Invalid else Partial
  {
    assert js[1..k + 1] == body[..k];
    ScanToNul(js, k + 1, 1, body, k);
  }

  // ----- ill-formed

  /** A character outside printable ASCII inside a primitive is INVAL, and the parse stays before the primitive. */
  lemma {:induction false} BadPrimitive(js: string, len: nat, p: nat, z: Zip, text: string, c: char)
    requires Readable(js, len) && RfcPrimitive(text) && At(js, len, p, text + [c])
    requires c != '\0' && c !in "\t\r\n" && (c as int < 32 || c as int > 126)
    ensures Run(js, len, p, z) == Outcome(Invalid, p, z)
  {
    hide ScanString, RfcPrimitive;
    RfcPrimitiveOk(text);
    AtSplit(js, len, p, text, [c]);
    AtChar(js, len, p, text, 0);
    AtChar(js, len, p + |text|, [c], 0);
    DelimiterChar(c);
    ScanToBad(js, len, p, text, 0);
  }

  lemma {:induction false} ScanToBad(js: string, len: nat, p: nat, text: string, i: nat)
    requires Readable(js, len) && At(js, len, p, text) && PrimOk(text) && i <= |text| && p + |text| < len
    requires js[p + |text|] != '\0' && !Delimiter(js[p + |text|]) && !Printable(js[p + |text|])
    ensures ScanPrimitive(js, len, p + i).Bad?
    decreases |text| - i
  {
    if i < |text| {
      AtChar(js, len, p, text, i);
      ScanToBad(js, len, p, text, i + 1);
    }
  }

  /** Any escape but those of the standard is INVAL, and the parse stays before the string. */
  lemma {:induction false} BadEscape(js: string, len: nat, p: nat, z: Zip, body: string)
    requires Readable(js, len) && WellEscaped(body) && At(js, len, p, "\"" + body + "\\")
    requires js[p + |body| + 2] !in "\"\\/bfnrtu"
    ensures Run(js, len, p, z) == Outcome(Invalid, p, z)
  {
    hide Run, ScanPrimitive, WellEscaped, At;
    var at := p + 1 + |body|;
    assert "\"" + body + "\\" == "\"" + (body + "\\");
    AtChar(js, len, p, "\"" + body + "\\", 0);
    AtSplit(js, len, p, "\"", body + "\\");
    AtSplit(js, len, p + 1, body, "\\");
    AtChar(js, len, at, "\\", 0);
    ShortEscape(js[at + 1]);
    NotListed(js[at + 1]);
    ScanBodyTo(js, len, p + 1, body);
    StringRefused(js, len, p, z);
  }

  lemma NotListed(c: char)
    requires c !in "\"\\/bfnrtu"
    ensures c !in "\"\\/bfnrt" && c != 'u'
  {
    assert "\"\\/bfnrtu" == "\"\\/bfnrt" + "u";
  }

  /** Fewer than four hexadecimal digits before another character are INVAL. */
  lemma {:induction false} BadHex(js: string, len: nat, p: nat, z: Zip, body: string, digits: string)
    requires Readable(js, len) && WellEscaped(body) && At(js, len, p, "\"" + body + "\\u")
    requires |digits| < 4 && (forall i :: 0 <= i < |digits| ==> digits[i] in "0123456789abcdefABCDEF")
    requires var at := p + |body| + 3;
             && at + |digits| < |js| && js[at..at + |digits|] == digits
             && js[at + |digits|] != '\0' && js[at + |digits|] !in "0123456789abcdefABCDEF"
    ensures Run(js, len, p, z) == Outcome(Invalid, p, z)
  {
    hide Run, ScanString, ScanPrimitive, WellEscaped, At;
    var at := p + 1 + |body|;
    assert "\"" + body + "\\u" == "\"" + (body + "\\u");
    AtChar(js, len, p, "\"" + body + "\\u", 0);
    AtSplit(js, len, p, "\"", body + "\\u");
    AtSplit(js, len, p + 1, body, "\\u");
    AtChar(js, len, at, "\\u", 0);
    AtChar(js, len, at, "\\u", 1);
    ScanBodyTo(js, len, p + 1, body);
    HexEscapeBad(js, len, at, digits);
    StringRefused(js, len, p, z);
  }

  lemma HexEscapeBad(js: string, len: nat, at: nat, digits: string)
    requires Readable(js, len) && at + 1 < len && js[at] == '\\' && js[at + 1] == 'u'
    requires |digits| < 4 && (forall i :: 0 <= i < |digits| ==> digits[i] in "0123456789abcdefABCDEF")
    requires at + 2 + |digits| < |js| && js[at + 2..at + 2 + |digits|] == digits
    requires js[at + 2 + |digits|] != '\0' && js[at + 2 + |digits|] !in "0123456789abcdefABCDEF"
    ensures ScanString(js, len, at).Bad?
  {
    hide SkipHex;
    HexDigit(js[at + 2 + |digits|]);
    HexToBad(js, at + 2, digits, 4);
  }

  lemma StringRefused(js: string, len: nat, p: nat, z: Zip)
    requires Readable(js, len) && p < len && js[p] == '\"' && ScanString(js, len, p + 1).Bad?
    ensures Run(js, len, p, z) == Outcome(Invalid, p, z)
  {
    hide ScanString, ScanPrimitive;
  }

  lemma {:induction false} HexToBad(js: string, p: nat, digits: string, n: nat)
    requires p + |digits| < |js| && js[|js| - 1] == '\0' && |digits| < n && js[p..p + |digits|] == digits
    requires forall i :: 0 <= i < |digits| ==> digits[i] in "0123456789abcdefABCDEF"
    requires js[p + |digits|] != '\0' && !Hex(js[p + |digits|])
    ensures SkipHex(js, p, n).Bad?
    decreases |digits|
  {
    if digits != "" {
      assert js[p] == js[p..p + |digits|][0] == digits[0];
      assert digits[0] in "0123456789abcdefABCDEF";
      HexDigit(js[p]);
      assert js[p + 1..p + 1 + |digits[1..]|] == digits[1..];
      assert !Hex('\0');
      HexToBad(js, p + 1, digits[1..], n - 1);
    }
  }

  /** Scanning a well-escaped body comes to what follows it. */
  lemma {:induction false} ScanBodyTo(js: string, len: nat, p: nat, body: string)
    requires Readable(js, len) && At(js, len, p, body) && WellEscaped(body)
    ensures ScanString(js, len, p) == ScanString(js, len, p + |body|)
    decreases |body|
  {
    if body != "" {
      AtChar(js, len, p, body, 0);
      var step := if body[0] != '\\' then 1 else if SimpleEscape(body[1]) then 2 else 6;
      if body[0] == '\\' { AtChar(js, len, p, body, 1); }
      if step == 6 { HexText(js, len, p, body); }
      assert body == body[..step] + body[step..];
      AtSplit(js, len, p, body[..step], body[step..]);
      ScanBodyTo(js, len, p + step, body[step..]);
    }
  }

  /** A closing bracket that does not match the innermost open one, or with none open, is INVAL. */
  lemma {:induction false} WrongClose(js: string, len: nat, p: nat, z: Zip)
    requires Readable(js, len) && p < len && js[p] in "]}"
    requires z.Root? || js[p] != CloseText(z.kind)[0]
    requires z.In? ==> Container(z.kind)
    ensures Run(js, len, p, z) == Outcome(Invalid, p, z)
  {
    hide ScanString, ScanPrimitive;
  }

  lemma BracketPrefix(kind: TokenType, a: string, text: string, b: string)
    ensures var s := Bracketed(kind, a, text, b); s[..|s| - 1] == (OpenText(kind) + a) + (text + b)
  {
  }

  /** A container whose inside adds `kids`, up to its closing bracket. */
  lemma {:induction false} RunUnclosed(js: string, len: nat, p: nat, z: Zip, kind: TokenType,
                                       text: string, gap: Layout, kids: seq<Node>)
    requires Readable(js, len) && Container(kind) && BlankLayout(gap)
    requires At(js, len, p, OpenText(kind) + gap(p + 1))
    requires At(js, len, Inside(gap, p) + |text|, gap(Inside(gap, p) + |text|))
    requires Run(js, len, Inside(gap, p), In(z, kind, p, []))
          == Run(js, len, Inside(gap, p) + |text|, In(z, kind, p, [] + kids))
    ensures Run(js, len, p, z)
         == Run(js, len, p + |Enclosed(kind, text, gap, p)| - 1, In(z, kind, p, [] + kids))
  {
    hide Run, At, Blanks, Skippable, Bracketed, OpenText;
    var q := Inside(gap, p) + |text|;
    LayoutSkips(gap, q);
    RunOpen(js, len, p, z, kind, gap(p + 1));
    RunBlanks(js, len, q, In(z, kind, p, [] + kids), gap(q), 0);
  }

  /** The pieces of a container text without its closing bracket; what is left behind ends whatever is before it. */
  lemma {:induction false} UnclosedSplit(js: string, len: nat, p: nat, kind: TokenType, text: string, gap: Layout)
    requires Readable(js, len) && BlankLayout(gap)
    requires var s := Enclosed(kind, text, gap, p);
             At(js, len, p, s[..|s| - 1]) && p + |s| - 1 < len && js[p + |s| - 1] in "]}"
    ensures At(js, len, p, OpenText(kind) + gap(p + 1)) && At(js, len, Inside(gap, p), text)
    ensures var q := Inside(gap, p) + |text|; At(js, len, q, gap(q)) && Follow(js, len, q)
    ensures |Enclosed(kind, text, gap, p)| >= 2
  {
    hide At, BlankLayout, OpenText, Blanks;
    var a, q := gap(p + 1), Inside(gap, p) + |text|;
    var b := gap(q);
    BracketPrefix(kind, a, text, b);
    assert |OpenText(kind) + a| == 1 + |a| by { OneBracket(kind); }
    AtSplit(js, len, p, OpenText(kind) + a, text + b);
    AtSplit(js, len, Inside(gap, p), text, b);
    if b != "" {
      LayoutBlank(gap, q);
      AtChar(js, len, q, b, 0);
      BlankDelimits(b);
    } else {
      DelimiterChar(js[q]);
    }
  }

  lemma OneBracket(kind: TokenType)
    ensures |OpenText(kind)| == 1
  {
  }

  lemma LayoutBlank(gap: Layout, p: nat)
    requires BlankLayout(gap)
    ensures Blanks(gap(p))
  {
  }

  lemma BlankDelimits(b: string)
    requires Blanks(b) && b != ""
    ensures Delimiter(b[0])
  {
  }

  /** An array or object printed with any layout, anywhere, but closed by the other bracket is INVAL at that bracket. */
  lemma {:induction false} MisClosed(js: string, len: nat, p: nat, z: Zip, j: Json, gap: Layout)
    requires Readable(js, len) && WellFormed(j) && BlankLayout(gap) && (j.Arr? || j.Obj?)
    requires var s := Print(j, gap, p);
             && At(js, len, p, s[..|s| - 1])
             && p + |s| - 1 < len && js[p + |s| - 1] == if j.Arr? then '}' else ']'
    ensures var o := Run(js, len, p, z);
            o.status == Invalid && o.pos == p + |Print(j, gap, p)| - 1
  {
    hide Run, At, PrintItems, PrintMembers, ItemsAt, MembersAt, BlankLayout, Enclosed, Inside, Follow;
    var q := Inside(gap, p);
    var at := p + |Print(j, gap, p)| - 1;
    if j.Arr? {
      var text, kids := PrintItems(j.items, gap, q), ItemsAt(j.items, gap, q);
      UnclosedSplit(js, len, p, Array, text, gap);
      RunItems(js, len, q, In(z, Array, p, []), j.items, gap);
      RunUnclosed(js, len, p, z, Array, text, gap, kids);
      WrongClose(js, len, at, In(z, Array, p, [] + kids));
    } else {
      var text, kids := PrintMembers(j.members, gap, q), MembersAt(j.members, gap, q);
      UnclosedSplit(js, len, p, Object, text, gap);
      RunMembers(js, len, q, In(z, Object, p, []), j.members, gap);
      RunUnclosed(js, len, p, z, Object, text, gap, kids);
      WrongClose(js, len, at, In(z, Object, p, [] + kids));
    }
  }
}
