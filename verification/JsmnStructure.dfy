/**
  What holds of the token array on every input: the open tokens are a textbook
  bracket stack, ranges are nested or disjoint, sizes count children, and the
  result is decided by lexing and bracket matching alone.
 */
module JsmnStructure {
  import opened JsmnLexer
  import opened JsmnTree
  import opened JsmnMachine
  import opened Basics

  // ----- reference: lexing and bracket matching, apart from each other

  datatype Placed = Placed(at: nat, item: Lexeme)

  datatype Lexing = Lexing(items: seq<Placed>, status: Status)

  /** All lexemes from `p` on, whatever the brackets do. */
  function Lexemes(js: string, len: nat, p: nat): Lexing
    requires Readable(js, len)
    decreases len - p
  {
    if AtEnd(js, len, p) then Lexing([], Done)
    else
      match Lex(js, len, p)
      case Stuck(why) => Lexing([], why)
      case Lexed(item, next) =>
        var rest := Lexemes(js, len, next);
        rest.(items := [Placed(p, item)] + rest.items)
  }

  type Bracket = (TokenType, nat)

  /** Textbook bracket matching: the brackets left open, or None at the first mismatch. */
  function Match(items: seq<Placed>, stack: seq<Bracket>): Option<seq<Bracket>>
    decreases items
  {
    if items == [] then Some(stack)
    else
      match items[0].item
      case Open(kind) => Match(items[1..], stack + [(kind, items[0].at)])
      case Close(kind) =>
        if stack == [] || stack[|stack| - 1].0 != kind then None
        else Match(items[1..], stack[..|stack| - 1])
      case _ => Match(items[1..], stack)
  }

  /** The containers a zipper has open, outermost first. */
  function Frames(z: Zip): seq<Bracket> {
    match z
    case Root(_) => []
    case In(up, kind, start, _) => Frames(up) + [(kind, start)]
  }

  /** Tokens still open, in array order. */
  function OpenTokens(ts: seq<Token>): seq<(TokenType, int)>
    decreases ts
  {
    if ts == [] then []
    else
      var t := ts[|ts| - 1];
      OpenTokens(ts[..|ts| - 1]) + (if t.end == -1 then [(t.kind, t.start)] else [])
  }

  lemma {:induction false} OpenConcat(a: seq<Token>, b: seq<Token>)
    ensures OpenTokens(a + b) == OpenTokens(a) + OpenTokens(b)
    decreases |b|
  {
    if b == [] {
      assert a + b == a;
    } else {
      OpenConcat(a, b[..|b| - 1]);
      assert (a + b)[..|a + b| - 1] == a + b[..|b| - 1];
    }
  }

  lemma {:induction false} ClosedHasNoOpen(ts: seq<Token>)
    requires forall t :: t in ts ==> t.end >= 0
    ensures OpenTokens(ts) == []
    decreases |ts|
  {
    if ts != [] {
      ClosedHasNoOpen(ts[..|ts| - 1]);
      assert ts[|ts| - 1] in ts;
    }
  }

  /** The open tokens of the array are exactly the bracket stack, bottom to top. */
  lemma {:induction false} OpenTokensAreFrames(z: Zip, extra: nat)
    ensures |OpenTokens(FlatZip(z, extra))| == |Frames(z)|
    ensures forall i :: 0 <= i < |Frames(z)| ==>
              OpenTokens(FlatZip(z, extra))[i] == (Frames(z)[i].0, Frames(z)[i].1)
    decreases z
  {
    ForestClosed(z.kids);
    ClosedHasNoOpen(FlatForest(z.kids));
    if z.In? {
      var top := [Token(z.kind, z.start, -1, |z.kids| + extra)];
      OpenTokensAreFrames(z.up, 1);
      OpenConcat(FlatZip(z.up, 1), top);
      OpenConcat(FlatZip(z.up, 1) + top, FlatForest(z.kids));
      assert top[..0] == [];
      assert OpenTokens(top) == [(z.kind, z.start as int)];
    }
  }

  /** The verdict that lexing and bracket matching alone give on a text. */
  function Verdict(lexing: Lexing, stack: Option<seq<Bracket>>): Status {
    match stack
    case None => Invalid
    case Some(open) =>
      if lexing.status != Done then lexing.status
      else if open == [] then Done else Partial
  }

  lemma ShiftFrames(z: Zip, item: Lexeme, p: nat, rest: seq<Placed>)
    ensures match Shift(z, item, p)
            case None => Match([Placed(p, item)] + rest, Frames(z)) == None
            case Some(z') => Match([Placed(p, item)] + rest, Frames(z)) == Match(rest, Frames(z'))
  {
    assert ([Placed(p, item)] + rest)[1..] == rest;
    if item.Close? && z.In? {
      assert Frames(z)[..|Frames(z)| - 1] == Frames(z.up);
    }
  }

  /** The parse decides every text exactly as lexing and bracket matching do. */
  lemma {:induction false} RunVerdict(js: string, len: nat, p: nat, z: Zip)
    requires Readable(js, len)
    ensures var o := Run(js, len, p, z);
            var lexing := Lexemes(js, len, p);
            var stack := Match(lexing.items, Frames(z));
            && o.status == Verdict(lexing, stack)
            && (stack.Some? ==> Frames(o.zip) == stack.value)
    decreases len - p
  {
    if !AtEnd(js, len, p) {
      var step := Lex(js, len, p);
      if step.Lexed? {
        ShiftFrames(z, step.item, p, Lexemes(js, len, step.next).items);
        var z' := Shift(z, step.item, p);
        if z'.Some? { RunVerdict(js, len, step.next, z'.value); }
      }
    }
  }

  // ----- the states at the head of the parse loop

  datatype Head = Head(pos: nat, zip: Zip)

  /** Position and open containers after `k` rounds of the loop of a fresh parser. */
  function After(js: string, len: nat, k: nat): Head
    requires Readable(js, len)
  {
    if k == 0 then Head(0, Root([]))
    else
      var s := After(js, len, k - 1);
      if AtEnd(js, len, s.pos) then s
      else
        match Lex(js, len, s.pos)
        case Stuck(_) => s
        case Lexed(item, next) =>
          match Shift(s.zip, item, s.pos)
          case None => s
          case Some(z) => Head(next, z)
  }

  /** A run passes through each of these states, and stops in the last one. */
  lemma {:induction false} RunFromAfter(js: string, len: nat, k: nat)
    requires Readable(js, len)
    ensures var s := After(js, len, k);
            Run(js, len, s.pos, s.zip) == Run(js, len, 0, Root([]))
    ensures After(js, len, k).pos <= len
  {
    if k > 0 { RunFromAfter(js, len, k - 1); }
  }

  ghost predicate Halted(js: string, len: nat, s: Head)
    requires Readable(js, len)
  {
    || AtEnd(js, len, s.pos)
    || Lex(js, len, s.pos).Stuck?
    || Shift(s.zip, Lex(js, len, s.pos).item, s.pos).None?
  }

  lemma {:induction false} RunHalts(js: string, len: nat, k: nat)
    requires Readable(js, len)
    ensures After(js, len, k).pos >= k || Halted(js, len, After(js, len, k))
  {
    if k > 0 { RunHalts(js, len, k - 1); }
  }

  lemma {:induction false} RunIsAfter(js: string, len: nat)
    requires Readable(js, len)
    ensures var o := Run(js, len, 0, Root([])); After(js, len, len) == Head(o.pos, o.zip)
  {
    RunHalts(js, len, len);
    RunFromAfter(js, len, len);
  }

  // ----- ranges

  predicate Container(kind: TokenType) {
    kind == Object || kind == Array
  }

  /** First and one past last character of a node in the text, quotes included. */
  function Lo(n: Node): int { if n.kind == String then n.start - 1 else n.start }
  function Hi(n: Node): int { if n.kind == String then n.end + 1 else n.end }

  /** A node and its descendants lie in the text in order, children between the brackets. */
  ghost predicate PlacedNode(n: Node)
    decreases n
  {
    match n
    case Item(kind, start, end) => !Container(kind) && start <= end && Lo(n) < Hi(n)
    case Branch(kind, start, end, kids) => Container(kind) && PlacedForest(kids, start + 1, end - 1)
  }

  ghost predicate PlacedForest(ns: seq<Node>, lo: int, hi: int)
    decreases ns
  {
    if ns == [] then lo <= hi
    else
      var n := ns[|ns| - 1];
      PlacedForest(ns[..|ns| - 1], lo, Lo(n)) && PlacedNode(n) && Hi(n) <= hi
  }

  ghost predicate PlacedZip(z: Zip, hi: int)
    decreases z
  {
    match z
    case Root(kids) => PlacedForest(kids, 0, hi)
    case In(up, kind, start, kids) =>
      Container(kind) && PlacedZip(up, start) && PlacedForest(kids, start + 1, hi)
  }

  lemma {:induction false} PlacedForestWider(ns: seq<Node>, lo: int, hi: int, hi': int)
    requires PlacedForest(ns, lo, hi) && hi <= hi'
    ensures PlacedForest(ns, lo, hi')
  {
  }

  lemma {:induction false} PlacedAddChild(z: Zip, n: Node, p: int, hi: int)
    requires PlacedZip(z, p) && PlacedNode(n) && p <= Lo(n) && Hi(n) <= hi
    ensures PlacedZip(AddChild(z, n), hi)
  {
    var lo := if z.Root? then 0 else z.start + 1;
    PlacedForestWider(z.kids, lo, p, Lo(n));
    assert (z.kids + [n])[..|z.kids|] == z.kids;
  }

  lemma {:induction false} ShiftPlaced(js: string, len: nat, p: nat, z: Zip)
    requires Readable(js, len) && !AtEnd(js, len, p) && PlacedZip(z, p)
    ensures var step := Lex(js, len, p);
            step.Lexed? && Shift(z, step.item, p).Some? ==>
              PlacedZip(Shift(z, step.item, p).value, step.next)
  {
    hide ScanString, ScanPrimitive, SkipHex;
    var step := Lex(js, len, p);
    if step.Lexed? && Shift(z, step.item, p).Some? {
      match step.item {
        case Blank => PlacedForestWider(z.kids, if z.Root? then 0 else z.start + 1, p, p + 1);
        case Open(kind) =>
        case Scalar(kind, start, end) => PlacedAddChild(z, Item(kind, start, end), p, step.next);
        case Close(kind) => PlacedAddChild(z.up, Branch(kind, z.start, p + 1, z.kids), z.start, p + 1);
      }
    }
  }

  /** Starts strictly increase, ranges stay in [lo, hi), and any two are nested or disjoint. */
  ghost predicate Ordered(ts: seq<Token>, lo: int, hi: int) {
    && (forall i :: 0 <= i < |ts| ==>
          lo <= ts[i].start < hi && (ts[i].end == -1 || ts[i].start <= ts[i].end <= hi))
    && (forall i, j :: 0 <= i < j < |ts| ==> ts[i].start < ts[j].start && NestedOrDisjoint(ts[i], ts[j]))
  }

  /** For `a` before `b`: `a` is still open, or ends before `b` starts, or closes after `b` does. */
  predicate NestedOrDisjoint(a: Token, b: Token) {
    a.end == -1 || a.end <= b.start || (b.end != -1 && b.end < a.end)
  }

  lemma {:induction false} OrderedConcat(a: seq<Token>, b: seq<Token>, lo: int, mid: int, hi: int)
    requires Ordered(a, lo, mid) && Ordered(b, mid, hi) && lo <= mid <= hi
    ensures Ordered(a + b, lo, hi)
  {
    var ts := a + b;
    forall i, j | 0 <= i < j < |ts|
      ensures ts[i].start < ts[j].start && NestedOrDisjoint(ts[i], ts[j])
    {
      if i < |a| <= j { assert ts[i] == a[i] && ts[j] == b[j - |a|]; }
    }
  }

  lemma {:induction false} ForestOrdered(ns: seq<Node>, lo: int, hi: int)
    requires PlacedForest(ns, lo, hi)
    ensures lo <= hi && Ordered(FlatForest(ns), lo, hi)
    decreases ns
  {
    if ns != [] {
      var n := ns[|ns| - 1];
      ForestOrdered(ns[..|ns| - 1], lo, Lo(n));
      NodeOrdered(n);
      OrderedConcat(FlatForest(ns[..|ns| - 1]), FlatNode(n), lo, Lo(n), Hi(n));
    }
  }

  lemma {:induction false} NodeOrdered(n: Node)
    requires PlacedNode(n)
    ensures Lo(n) < Hi(n) && Ordered(FlatNode(n), Lo(n), Hi(n))
    decreases n
  {
    if n.Branch? {
      ForestOrdered(n.kids, n.start + 1, n.end - 1);
      ForestClosed(n.kids);
      UnderOrdered(Token(n.kind, n.start, n.end, |n.kids|), FlatForest(n.kids));
    }
  }

  lemma {:induction false} UnderOrdered(t: Token, ts: seq<Token>)
    requires Ordered(ts, t.start + 1, t.end - 1) && t.start < t.end
    requires forall x :: x in ts ==> x.end >= 0
    ensures Ordered([t] + ts, t.start, t.end)
  {
    var all := [t] + ts;
    forall i, j | 0 <= i < j < |all|
      ensures all[i].start < all[j].start && NestedOrDisjoint(all[i], all[j])
    {
      assert all[j] == ts[j - 1] && ts[j - 1] in ts;
      if i > 0 { assert all[i] == ts[i - 1]; }
    }
  }

  lemma {:induction false} ZipOrdered(z: Zip, hi: int, extra: nat)
    requires PlacedZip(z, hi)
    ensures 0 <= hi && Ordered(FlatZip(z, extra), 0, hi)
    decreases z
  {
    hide FlatForest, PlacedForest;
    if z.Root? {
      ForestOrdered(z.kids, 0, hi);
    } else {
      ZipOrdered(z.up, z.start, 1);
      ForestOrdered(z.kids, z.start + 1, hi);
      var top := [Token(z.kind, z.start, -1, |z.kids| + extra)];
      assert Ordered(top, z.start, z.start + 1);
      OrderedConcat(FlatZip(z.up, 1), top, 0, z.start, z.start + 1);
      OrderedConcat(FlatZip(z.up, 1) + top, FlatForest(z.kids), 0, z.start + 1, hi);
    }
  }

  lemma {:induction false} AfterPlaced(js: string, len: nat, k: nat)
    requires Readable(js, len)
    ensures PlacedZip(After(js, len, k).zip, After(js, len, k).pos)
  {
    if k > 0 {
      AfterPlaced(js, len, k - 1);
      var s := After(js, len, k - 1);
      if !AtEnd(js, len, s.pos) { ShiftPlaced(js, len, s.pos, s.zip); }
    }
  }

  lemma {:induction false} RunPlaced(js: string, len: nat, p: nat, z: Zip)
    requires Readable(js, len) && PlacedZip(z, p)
    ensures var o := Run(js, len, p, z); PlacedZip(o.zip, o.pos)
    decreases len - p
  {
    hide PlacedZip, Lex, Shift, Run;
    RunStep(js, len, p, z);
    if !AtEnd(js, len, p) {
      var step := Lex(js, len, p);
      if step.Lexed? && Shift(z, step.item, p).Some? {
        LexMoves(js, len, p);
        ShiftPlaced(js, len, p, z);
        RunPlaced(js, len, step.next, Shift(z, step.item, p).value);
      }
    }
  }

  lemma LexMoves(js: string, len: nat, p: nat)
    requires Readable(js, len) && !AtEnd(js, len, p)
    ensures Lex(js, len, p).Lexed? ==> p < Lex(js, len, p).next
  {
  }

  /** Only the first token of a placed zipper can start at 0. */
  lemma {:induction false} LaterStarts(z: Zip, p: int, i: nat)
    requires PlacedZip(z, p) && 0 < i < |Flat(z)|
    ensures Flat(z)[i].start > 0
  {
    hide FlatZip, FlatForest, PlacedZip;
    ZipOrdered(z, p, 0);
    assert Flat(z)[0].start < Flat(z)[i].start;
  }

  lemma {:induction false} AfterStack(js: string, len: nat, k: nat)
    requires Readable(js, len)
    ensures var s := After(js, len, k);
            var items := Lexemes(js, len, 0).items;
            k <= |items| && Match(items[..k], []).Some? ==>
              Match(items[..k], []).value == Frames(s.zip) && Lexemes(js, len, s.pos).items == items[k..]
  {
    var items := Lexemes(js, len, 0).items;
    if k > 0 && k <= |items| && Match(items[..k], []).Some? {
      MatchSplit(items[..k - 1], items[k - 1], []);
      assert items[..k] == items[..k - 1] + [items[k - 1]];
      AfterStack(js, len, k - 1);
      var s := After(js, len, k - 1);
      var rest := Lexemes(js, len, s.pos);
      assert rest.items[0] == items[k - 1] && rest.items[1..] == items[k..];
      var step := Lex(js, len, s.pos);
      ShiftFrames(s.zip, step.item, s.pos, []);
      assert [items[k - 1]] + [] == [items[k - 1]];
      assert ([items[k - 1]] + Lexemes(js, len, step.next).items)[1..] == Lexemes(js, len, step.next).items;
    }
  }

  lemma {:induction false} MatchSplit(a: seq<Placed>, last: Placed, stack: seq<Bracket>)
    ensures Match(a + [last], stack).Some? ==> Match(a, stack).Some?
    ensures Match(a, stack).Some? ==> Match(a + [last], stack) == Match([last], Match(a, stack).value)
    decreases a
  {
    if a == [] {
      assert a + [last] == [last];
    } else {
      assert (a + [last])[1..] == a[1..] + [last];
      var top := if stack == [] then [] else stack[..|stack| - 1];
      MatchSplit(a[1..], last, stack);
      MatchSplit(a[1..], last, top);
      if a[0].item.Open? { MatchSplit(a[1..], last, stack + [(a[0].item.kind, a[0].at)]); }
    }
  }

  /**
    The parser's state at every loop head, on every input: its open tokens are the
    bracket stack of the lexemes read so far, `toksuper` is the top of that stack,
    starts strictly increase and any two ranges are nested or disjoint.
   */
  lemma {:induction false} LoopHead(js: string, len: nat, k: nat)
    requires Readable(js, len)
    ensures var s := After(js, len, k);
            var ts := Flat(s.zip);
            && Ordered(ts, 0, s.pos)
            && |OpenTokens(ts)| == |Frames(s.zip)|
            && (forall i :: 0 <= i < |Frames(s.zip)| ==>
                  OpenTokens(ts)[i] == (Frames(s.zip)[i].0, Frames(s.zip)[i].1))
            && (Frames(s.zip) == [] <==> Super(s.zip) == -1)
            && (Super(s.zip) != -1 ==>
                  0 <= Super(s.zip) < |ts| && ts[Super(s.zip)].end == -1 &&
                  forall i :: Super(s.zip) < i < |ts| ==> ts[i].end != -1)
    ensures var items := Lexemes(js, len, 0).items;
            k <= |items| && Match(items[..k], []).Some? ==>
              Match(items[..k], []).value == Frames(After(js, len, k).zip)
  {
    var s := After(js, len, k);
    AfterPlaced(js, len, k);
    ZipOrdered(s.zip, s.pos, 0);
    OpenTokensAreFrames(s.zip, 0);
    SuperIsLastOpen(s.zip, 0);
    AfterStack(js, len, k);
  }

  // ----- two passes

  lemma {:induction false} ShiftGrows(z: Zip, item: Lexeme, p: nat)
    ensures var z' := Shift(z, item, p);
            z'.Some? ==> |Flat(z'.value)| == |Flat(z)| + (if item.Open? || item.Scalar? then 1 else 0)
  {
    BumpSuper(z);
    if item.Scalar? {
      FlatAddChild(z, Item(item.kind, item.start, item.end));
    } else if item.Close? && z.In? {
      FlatClose(z, p + 1);
    }
  }

  /** A run never loses a token. */
  lemma {:induction false} RunGrows(js: string, len: nat, p: nat, z: Zip)
    requires Readable(js, len)
    ensures |Flat(Run(js, len, p, z).zip)| >= |Flat(z)|
    decreases len - p
  {
    hide FlatZip, FlatForest, ScanString, ScanPrimitive, SkipHex;
    if !AtEnd(js, len, p) {
      var step := Lex(js, len, p);
      if step.Lexed? && Shift(z, step.item, p).Some? {
        ShiftGrows(z, step.item, p);
        RunGrows(js, len, step.next, Shift(z, step.item, p).value);
      }
    }
  }

  /** A lexeme that makes a token adds it to the run. */
  lemma RunTakesMore(js: string, len: nat, p: nat, z: Zip)
    requires Readable(js, len) && !AtEnd(js, len, p)
    requires Lex(js, len, p).Lexed? && (Lex(js, len, p).item.Open? || Lex(js, len, p).item.Scalar?)
    ensures |Flat(Run(js, len, p, z).zip)| > |Flat(z)|
  {
    hide FlatZip, FlatForest, ScanString, ScanPrimitive, SkipHex;
    var step := Lex(js, len, p);
    ShiftGrows(z, step.item, p);
    RunGrows(js, len, step.next, Shift(z, step.item, p).value);
  }

  /** Positions and token counts never pass the length of the text, so 32-bit fields hold them when it does. */
  lemma {:induction false} FitsText(js: string, len: nat, k: nat)
    requires Readable(js, len)
    ensures var s := After(js, len, k);
            |Flat(s.zip)| <= s.pos <= len &&
            forall i :: 0 <= i < |Flat(s.zip)| ==> Flat(s.zip)[i].start < len && Flat(s.zip)[i].end <= len
  {
    TokensFit(js, len, k);
    RunFromAfter(js, len, k);
    AfterPlaced(js, len, k);
    ZipOrdered(After(js, len, k).zip, After(js, len, k).pos, 0);
  }

  lemma {:induction false} TokensFit(js: string, len: nat, k: nat)
    requires Readable(js, len)
    ensures |Flat(After(js, len, k).zip)| <= After(js, len, k).pos
  {
    if k > 0 {
      TokensFit(js, len, k - 1);
      var s := After(js, len, k - 1);
      if !AtEnd(js, len, s.pos) && Lex(js, len, s.pos).Lexed? {
        ShiftGrows(s.zip, Lex(js, len, s.pos).item, s.pos);
      }
    }
  }

  /** A filling parse that succeeds finds as many tokens as the counting parse reports. */
  lemma {:induction false} TwoPasses(js: string, len: nat, p: nat, z: Zip)
    requires Readable(js, len)
    ensures Count(js, len, p).status == Lexemes(js, len, p).status
    ensures var o := Run(js, len, p, z);
            var t := Count(js, len, p);
            o.status == Done ==> t.status == Done && t.pos == o.pos && |Flat(z)| + t.count == |Flat(o.zip)|
    decreases len - p
  {
    if !AtEnd(js, len, p) {
      var step := Lex(js, len, p);
      if step.Lexed? {
        ShiftGrows(z, step.item, p);
        var z' := Shift(z, step.item, p);
        TwoPasses(js, len, step.next, if z'.Some? then z'.value else z);
      }
    }
  }

  /** From a fresh parser: success of the filling parse is success of the counting parse on balanced brackets. */
  lemma {:induction false} TwoPassAgreement(js: string, len: nat)
    requires Readable(js, len)
    ensures var o := Run(js, len, 0, Root([]));
            var t := Count(js, len, 0);
            && (o.status == Done <==> t.status == Done && Match(Lexemes(js, len, 0).items, []) == Some([]))
            && (o.status == Done ==> t.count == |Flat(o.zip)| && t.pos == o.pos)
  {
    RunVerdict(js, len, 0, Root([]));
    TwoPasses(js, len, 0, Root([]));
  }

  // ----- sizes

  /** Sum of the size fields. */
  function SizeSum(ts: seq<Token>): int
    decreases ts
  {
    if ts == [] then 0 else SizeSum(ts[..|ts| - 1]) + ts[|ts| - 1].size
  }

  lemma {:induction false} SizeSumConcat(a: seq<Token>, b: seq<Token>)
    ensures SizeSum(a + b) == SizeSum(a) + SizeSum(b)
    decreases |b|
  {
    if b == [] {
      assert a + b == a;
    } else {
      SizeSumConcat(a, b[..|b| - 1]);
      assert (a + b)[..|a + b| - 1] == a + b[..|b| - 1];
    }
  }

  lemma {:induction false} ForestSizeSum(ns: seq<Node>)
    ensures SizeSum(FlatForest(ns)) + |ns| == |FlatForest(ns)|
    decreases ns
  {
    if ns != [] {
      var n := ns[|ns| - 1];
      ForestSizeSum(ns[..|ns| - 1]);
      NodeSizeSum(n);
      SizeSumConcat(FlatForest(ns[..|ns| - 1]), FlatNode(n));
    }
  }

  lemma {:induction false} NodeSizeSum(n: Node)
    ensures SizeSum(FlatNode(n)) + 1 == |FlatNode(n)|
    decreases n
  {
    if n.Branch? {
      ForestSizeSum(n.kids);
      var head := [Token(n.kind, n.start, n.end, |n.kids|)];
      assert head[..0] == [];
      assert SizeSum(head) == |n.kids|;
      SizeSumConcat(head, FlatForest(n.kids));
    } else {
      assert FlatNode(n)[..0] == [];
    }
  }

  predicate Encloses(a: Token, b: Token) {
    Container(a.kind) && a.start < b.start && b.end <= a.end
  }

  /** Innermost container around token `j` among the first `i` tokens; -1 for a root. */
  function Innermost(ts: seq<Token>, i: nat, j: nat): int
    requires i <= j < |ts|
    decreases i
  {
    if i == 0 then -1
    else if Encloses(ts[i - 1], ts[j]) then i - 1
    else Innermost(ts, i - 1, j)
  }

  function Parent(ts: seq<Token>, j: nat): int
    requires j < |ts|
  {
    Innermost(ts, j, j)
  }

  /** How many of the first `n` tokens have token `i` as their innermost container. */
  function Children(ts: seq<Token>, i: int, n: nat): nat
    requires n <= |ts|
  {
    if n == 0 then 0
    else Children(ts, i, n - 1) + (if Parent(ts, n - 1) == i then 1 else 0)
  }

  /** Every token's size is the number of tokens whose innermost container it is. */
  ghost predicate SizesCount(ts: seq<Token>) {
    forall i :: 0 <= i < |ts| ==> ts[i].size == Children(ts, i, |ts|)
  }

  lemma {:induction false} InnermostPrefix(a: seq<Token>, b: seq<Token>, i: nat, j: nat)
    requires i <= j < |a|
    ensures Innermost(a + b, i, j) == Innermost(a, i, j)
  {
    if i > 0 { InnermostPrefix(a, b, i - 1, j); }
  }

  lemma {:induction false} InnermostSuffix(a: seq<Token>, b: seq<Token>, i: nat, j: nat)
    requires i <= |a| + j && j < |b|
    requires forall x :: x in a ==> !Encloses(x, b[j])
    ensures Innermost(a + b, i, |a| + j)
         == if i <= |a| || Innermost(b, i - |a|, j) == -1 then -1 else |a| + Innermost(b, i - |a|, j)
  {
    if i > 0 { InnermostSuffix(a, b, i - 1, j); }
  }

  lemma {:induction false} ChildrenPrefix(a: seq<Token>, b: seq<Token>, i: int, n: nat)
    requires n <= |a|
    ensures Children(a + b, i, n) == Children(a, i, n)
  {
    if n > 0 {
      ChildrenPrefix(a, b, i, n - 1);
      InnermostPrefix(a, b, n - 1, n - 1);
    }
  }

  lemma {:induction false} ChildrenBounded(ts: seq<Token>, i: int, n: nat)
    requires n <= |ts| && (i >= n || i < -1)
    ensures Children(ts, i, n) == 0
  {
    if n > 0 {
      ChildrenBounded(ts, i, n - 1);
      InnermostBounded(ts, n - 1, n - 1);
    }
  }

  lemma {:induction false} InnermostBounded(ts: seq<Token>, i: nat, j: nat)
    requires i <= j < |ts|
    ensures -1 <= Innermost(ts, i, j) < i
  {
    if i > 0 { InnermostBounded(ts, i - 1, j); }
  }

  lemma {:induction false} ChildrenConcat(a: seq<Token>, b: seq<Token>, i: int, n: nat)
    requires n <= |b| && i >= -1
    requires forall x, y :: x in a && y in b ==> !Encloses(x, y)
    ensures Children(a + b, i, |a| + n)
         == if i == -1 then Children(a, -1, |a|) + Children(b, -1, n)
            else if i < |a| then Children(a, i, |a|)
            else Children(b, i - |a|, n)
  {
    if n == 0 {
      ChildrenPrefix(a, b, i, |a|);
      if i >= |a| { ChildrenBounded(a, i, |a|); }
    } else {
      ChildrenConcat(a, b, i, n - 1);
      InnermostSuffix(a, b, |a| + n - 1, n - 1);
      InnermostBounded(b, n - 1, n - 1);
    }
  }

  lemma {:induction false} InnermostUnder(t: Token, b: seq<Token>, i: nat, j: nat)
    requires i <= j < |b| && Encloses(t, b[j])
    ensures Innermost([t] + b, i + 1, j + 1) == 1 + Innermost(b, i, j)
  {
    if i > 0 { InnermostUnder(t, b, i - 1, j); }
  }

  lemma {:induction false} ChildrenUnder(t: Token, b: seq<Token>, i: int, n: nat)
    requires n <= |b| && i >= -1
    requires forall y :: y in b ==> Encloses(t, y)
    ensures Children([t] + b, i, n + 1) == if i == -1 then 1 else Children(b, i - 1, n)
  {
    if n == 0 {
      assert Children([t] + b, i, 0) == 0;
    } else {
      ChildrenUnder(t, b, i, n - 1);
      InnermostUnder(t, b, n - 1, n - 1);
      InnermostBounded(b, n - 1, n - 1);
    }
  }

  lemma {:induction false} ForestSizes(ns: seq<Node>, lo: int, hi: int)
    requires PlacedForest(ns, lo, hi)
    ensures SizesCount(FlatForest(ns)) && Children(FlatForest(ns), -1, |FlatForest(ns)|) == |ns|
    decreases ns
  {
    if ns != [] {
      var n := ns[|ns| - 1];
      var a, b := FlatForest(ns[..|ns| - 1]), FlatNode(n);
      ForestSizes(ns[..|ns| - 1], lo, Lo(n));
      NodeSizes(n);
      ForestOrdered(ns[..|ns| - 1], lo, Lo(n));
      ForestClosed(ns[..|ns| - 1]);
      NodeOrdered(n);
      forall x, y | x in a && y in b ensures !Encloses(x, y) { NodeNonEmptyRange(n, y); }
      ConcatSizes(a, b);
    }
  }

  lemma {:induction false} ConcatSizes(a: seq<Token>, b: seq<Token>)
    requires SizesCount(a) && SizesCount(b)
    requires forall x, y :: x in a && y in b ==> !Encloses(x, y)
    ensures SizesCount(a + b)
    ensures Children(a + b, -1, |a + b|) == Children(a, -1, |a|) + Children(b, -1, |b|)
  {
    forall i | 0 <= i < |a + b| ensures (a + b)[i].size == Children(a + b, i, |a + b|) {
      ChildrenConcat(a, b, i, |b|);
    }
    ChildrenConcat(a, b, -1, |b|);
  }

  lemma {:induction false} UnderSizes(t: Token, b: seq<Token>)
    requires SizesCount(b) && t.size == Children(b, -1, |b|)
    requires forall y :: y in b ==> Encloses(t, y)
    ensures SizesCount([t] + b) && Children([t] + b, -1, |[t] + b|) == 1
  {
    forall i | 0 <= i < |[t] + b| ensures ([t] + b)[i].size == Children([t] + b, i, |[t] + b|) {
      ChildrenUnder(t, b, i, |b|);
    }
    ChildrenUnder(t, b, -1, |b|);
  }

  /** A placed token never ends before the text position it starts at. */
  lemma {:induction false} NodeNonEmptyRange(n: Node, y: Token)
    requires PlacedNode(n) && y in FlatNode(n)
    ensures Lo(n) < y.end
  {
    NodeOrdered(n);
    NodeClosed(n);
    var i :| 0 <= i < |FlatNode(n)| && FlatNode(n)[i] == y;
    if i > 0 { assert FlatNode(n)[0].start < FlatNode(n)[i].start; }
  }

  lemma {:induction false} NodeSizes(n: Node)
    requires PlacedNode(n)
    ensures SizesCount(FlatNode(n)) && Children(FlatNode(n), -1, |FlatNode(n)|) == 1
    decreases n
  {
    var b := if n.Branch? then FlatForest(n.kids) else [];
    var t := FlatNode(n)[0];
    assert FlatNode(n) == [t] + b;
    if n.Branch? {
      ForestSizes(n.kids, n.start + 1, n.end - 1);
      ForestOrdered(n.kids, n.start + 1, n.end - 1);
      ForestClosed(n.kids);
    }
    UnderSizes(t, b);
  }

  /**
    After any successful parse the array is the pre-order of a forest, every size
    counts the tokens directly inside, and sizes plus roots account for all tokens.
   */
  lemma {:induction false} SizeAccounting(js: string, len: nat)
    requires Readable(js, len)
    requires Run(js, len, 0, Root([])).status == Done
    ensures var o := Run(js, len, 0, Root([]));
            var ts := Flat(o.zip);
            && o.zip.Root? && ts == FlatForest(o.zip.kids)
            && SizesCount(ts)
            && Children(ts, -1, |ts|) == |o.zip.kids|
            && SizeSum(ts) + Children(ts, -1, |ts|) == |ts|
  {
    var o := Run(js, len, 0, Root([]));
    RunIsAfter(js, len);
    AfterPlaced(js, len, len);
    RunVerdict(js, len, 0, Root([]));
    ForestSizes(o.zip.kids, 0, o.pos);
    ForestSizeSum(o.zip.kids);
  }
}
