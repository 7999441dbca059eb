/**
  Whole uses of the in-place parser: what a caller of jsmn_init and jsmn_parse gets.
  Memory is taken to be available; capacities are arbitrary.
 */
module JsmnUse {
  import opened JsmnLexer
  import opened JsmnTree
  import opened JsmnMachine
  import opened JsmnPool
  import opened JsmnParser
  import opened JsmnStructure
  import opened JsmnResume
  import opened JsmnRoundTrip
  import opened JsmnVerdict
  import opened Basics

  /** A fresh filling parse; the array may be replaced by larger ones on the way. */
  method Tokenize(js: string, len: nat, capacity: nat) returns (r: int, tokens: seq<Token>, p: Parser)
    requires Readable(js, len) && capacity >= 1
    ensures fresh(p) && p.tokens != null && fresh(p.tokens) && p.Valid() && p.intact
    ensures var o := Run(js, len, 0, Root([]));
            r == Code(o.status, |tokens|) && tokens == Flat(o.zip) && p.zip == o.zip && p.pos == o.pos
    ensures p.toknext == |tokens| <= p.tokens.Length
    ensures p.tokens.Length == Doubled(capacity, |tokens|)
    ensures p.tokens.Length == capacity || p.tokens.Length < 2 * |tokens|
    ensures p.copied == p.tokens.Length - capacity
  {
    hide Run, FlatZip, FlatForest, Doubled, TakeAll;
    var slots := new Token[capacity](_ => BLANK);
    p := new Parser(slots);
    NothingFlat();
    ghost var all := |Flat(Run(js, len, 0, Root([])).zip)|;
    RoomExactly(Gauge(0, capacity, capacity), all);
    r := p.Parse(js, len, capacity, _ => true);
    HonestTakes(Gauge(0, capacity, capacity), p.toknext);
    tokens := p.tokens[..p.toknext];
    DoubledLaws(capacity, |tokens|);
  }

  lemma NothingFlat()
    ensures Flat(Root([])) == []
  {
  }

  /** Tokenizing a printed value: the node count is returned and the tokens read back as the value. */
  method TokenizePrinted(ghost j: Json, ghost gap: Layout, js: string, len: nat, capacity: nat)
    returns (r: int, tokens: seq<Token>)
    requires WellFormed(j) && BlankLayout(gap) && capacity >= 1
    requires Readable(js, len) && js[..len] == Document(j, gap)
    ensures r == NodeCount(j) == |tokens|
    ensures var n := NodeAt(j, gap, |gap(0)|);
            tokens == FlatNode(n) && ReadForest(tokens, 0) == Some([n]) && ToJson(js, n) == Some(j)
  {
    hide Run, Document, FlatZip, FlatForest, FlatNode, NodeAt, ReadForest, ToJson, NodeCount, WellFormed, BlankLayout;
    RoundTrip(j, gap, js, len);
    var p;
    r, tokens, p := Tokenize(js, len, capacity);
  }

  /** Tokenizing a string, array or object that is not all there yet: PART, which asks for more. */
  method TokenizeCut(ghost j: Json, ghost gap: Layout, js: string, ghost len: nat, m: nat, capacity: nat)
    returns (r: int, counted: int)
    requires WellFormed(j) && BlankLayout(gap) && !j.Prim? && capacity >= 1
    requires Readable(js, len) && js[..len] == Document(j, gap)
    requires |gap(0)| < m < |gap(0)| + |Print(j, gap, |gap(0)|)|
    ensures r == PART
    ensures j.Str? ==> counted == PART
  {
    hide Run, Count, Document, Print, FlatZip, FlatForest, WellFormed, BlankLayout;
    CutIsPartial(j, gap, js, len, m);
    var counter := new Parser(null);
    counted := counter.Parse(js, m, 0, _ => true);
    var tokens, p;
    r, tokens, p := Tokenize(js, m, capacity);
  }

  /** A counting pass and then a filling pass over the same text agree whenever the second succeeds. */
  method CountThenFill(js: string, len: nat, capacity: nat) returns (counted: int, filled: int, toknext: nat)
    requires Readable(js, len) && capacity >= 1
    ensures filled >= 0 ==> counted == filled == toknext
    ensures filled >= 0 <==> counted >= 0 && Match(Lexemes(js, len, 0).items, []) == Some([])
  {
    hide Run, Count, FlatZip, FlatForest, Match, Lexemes;
    var counter := new Parser(null);
    counted := counter.Parse(js, len, 0, _ => true);
    TwoPassAgreement(js, len);
    var tokens, p;
    filled, tokens, p := Tokenize(js, len, capacity);
    toknext := |tokens|;
  }

  // ----- a second call

  /** Tokens there are after a first call to length m. */
  function FirstTokens(js: string, m: nat): seq<Token>
    requires Readable(js, m)
  {
    Flat(Run(js, m, 0, Root([])).zip)
  }

  /** What going on to length n makes of a first call to length m, on an undamaged array. */
  function Second(js: string, m: nat, n: nat): Outcome
    requires Readable(js, m) && Readable(js, n)
  {
    var first := Run(js, m, 0, Root([]));
    Run(js, n, first.pos, first.zip)
  }

  function Added(js: string, m: nat, n: nat): int
    requires Readable(js, m) && Readable(js, n)
  {
    |Flat(Second(js, m, n).zip)| - |FirstTokens(js, m)|
  }

  /** The second call goes past the array: it adds a token, and has no room by the number it is given. */
  predicate PastArray(t: nat, added: int, again: nat, length: nat) {
    added > 0 && if again <= length then t >= 2 * again else t + added > length
  }

  /**
    A first call to length m and a second to length n on the same parser, given any number of tokens at
    all.  The second call writes past the array exactly in the case `PastArray`.  Otherwise the tokens are
    those of going on with an undamaged array exactly if the number counts the first call's tokens or none
    is added, and then so is the result.
   */
  method ParseAgain(js: string, m: nat, n: nat, capacity: nat, again: nat) returns (r: int, tokens: seq<Token>)
    requires m <= n && Readable(js, n) && capacity >= 1
    ensures var t, added := |FirstTokens(js, m)|, Added(js, m, n);
            && added >= 0
            && (r == OVERRUN <==> PastArray(t, added, again, Doubled(capacity, t)))
            && (r != OVERRUN ==> (tokens == Flat(Second(js, m, n).zip) <==> added == 0 || t <= again))
            && (r != OVERRUN && (added == 0 || t <= again) ==> r == Code(Second(js, m, n).status, added))
  {
    hide Run, FlatZip, FlatForest, Doubled, TakeAll;
    var p;
    r, tokens, p := Tokenize(js, m, capacity);
    ghost var start, added := Gauge(p.toknext, again, p.tokens.Length), Added(js, m, n);
    r := p.Parse(js, n, again, _ => true);
    RoomExactly(start, added);
    if r == OVERRUN {
      tokens := [];
    } else {
      tokens := p.tokens[..p.toknext];
      RoomExactly(start, p.toknext - start.toknext);
      if !p.intact && p.lost < |Flat(Second(js, m, n).zip)| {
        SecondStarts(js, m, n, p.lost);
        assert tokens[p.lost].start == 0;
      }
    }
  }

  /** In an undamaged array only the first token can start at 0. */
  lemma SecondStarts(js: string, m: nat, n: nat, i: nat)
    requires m <= n && Readable(js, n) && 0 < i < |Flat(Second(js, m, n).zip)|
    ensures Flat(Second(js, m, n).zip)[i].start > 0
  {
    hide Run, FlatZip, FlatForest, PlacedZip;
    var first := Run(js, m, 0, Root([]));
    RunIsAfter(js, m);
    AfterPlaced(js, m, m);
    RunPlaced(js, n, first.pos, first.zip);
    LaterStarts(Second(js, m, n).zip, Second(js, m, n).pos, i);
  }

  /**
    Parsing to length m and then on to n gives the tokens of one parse to n, unless m cut a primitive, when
    the second call is given a number of tokens that counts those in use and no more than the array has.
   */
  method ParseInTwo(js: string, m: nat, n: nat, capacity: nat, again: nat) returns (r: int, tokens: seq<Token>, cut: bool)
    requires m <= n && Readable(js, n) && capacity >= 1 && again >= 1
    requires |FirstTokens(js, m)| <= again <= Doubled(capacity, |FirstTokens(js, m)|)
    ensures var once := Run(js, n, 0, Root([]));
            && (tokens == Flat(once.zip) <==> !cut)
            && (!cut && once.status != Done ==> r == Code(once.status, 0))
            && (!cut && once.status == Done ==> r == |tokens| - |FirstTokens(js, m)| >= 0)
    ensures cut ==> m < n && js[m] != '\0' && !Delimiter(js[m])
  {
    hide Run, FlatZip, FlatForest, Doubled;
    ResumeExactly(js, m, n);
    cut := CutsPrimitive(js, m, n, FirstTokens(js, m));
    r, tokens := ParseAgain(js, m, n, capacity, again);
  }

  /**
    Going on with the number of the first call, as a caller must who is not told of the growth: the array
    is left exactly when its tokens are twice the number and one is added; short of that, tokens are lost
    exactly when the array has grown and one is added.
   */
  method SameNumberAgain(js: string, m: nat, n: nat, capacity: nat) returns (r: int, tokens: seq<Token>)
    requires m <= n && Readable(js, n) && capacity >= 1
    ensures var t, added := |FirstTokens(js, m)|, Added(js, m, n);
            && (r == OVERRUN <==> added > 0 && t >= 2 * capacity)
            && (r != OVERRUN ==>
                  (tokens == Flat(Second(js, m, n).zip) <==> added == 0 || Doubled(capacity, t) == capacity))
  {
    hide Run, FlatZip, FlatForest, Second;
    DoubledLaws(capacity, |FirstTokens(js, m)|);
    r, tokens := ParseAgain(js, m, n, capacity, capacity);
  }

  // ----- texts on which the number of the first call will not do

  /** Ones with a blank between any two. */
  predicate Ones(js: string, len: nat) {
    len < |js| && forall i :: 0 <= i < len ==> js[i] == if i % 2 == 0 then '1' else ' '
  }

  lemma {:induction false} OnesRun(js: string, len: nat, p: nat, z: Zip)
    requires Readable(js, len) && Ones(js, len) && len % 2 == 1 && p % 2 == 0 && p < len
    ensures var o := Run(js, len, p, z);
            o.pos == len && |Flat(o.zip)| == |Flat(z)| + (len + 1 - p) / 2
    decreases len - p
  {
    hide Run, FlatZip, FlatForest;
    var z' := AddChild(z, Item(Primitive, p, p + 1));
    OneMore(js, len, p, z);
    ShiftGrows(z, Scalar(Primitive, p, p + 1), p);
    RunStep(js, len, p + 1, z');
    if p + 1 < len {
      OnesRun(js, len, p + 2, z');
    }
  }

  lemma OneMore(js: string, len: nat, p: nat, z: Zip)
    requires Readable(js, len) && Ones(js, len) && len % 2 == 1 && p % 2 == 0 && p < len
    ensures Run(js, len, p, z) == Run(js, len, p + 1, AddChild(z, Item(Primitive, p, p + 1)))
  {
    assert js[p..p + 1] == "1";
    RunPrimitive(js, len, p, z, "1");
  }

  /** A first call over `t` ones and a second over `k` more: as many tokens each. */
  lemma OnesInTwo(js: string, t: nat, k: nat)
    requires t > 0 && k > 0 && Readable(js, 2 * (t + k) - 1) && Ones(js, 2 * (t + k) - 1)
    ensures |FirstTokens(js, 2 * t - 1)| == t && Added(js, 2 * t - 1, 2 * (t + k) - 1) == k
  {
    hide Run, FlatZip, FlatForest;
    var m, n := 2 * t - 1, 2 * (t + k) - 1;
    var first := Run(js, m, 0, Root([]));
    NothingFlat();
    OnesRun(js, m, 0, Root([]));
    RunStep(js, n, m, first.zip);
    OnesRun(js, n, m + 1, first.zip);
  }

  /** For every capacity there is such a text: twice as many ones, and one more in a second call. */
  lemma OverrunInput(js: string, capacity: nat)
    requires capacity >= 1 && Readable(js, 2 * (2 * capacity + 1) - 1) && Ones(js, 2 * (2 * capacity + 1) - 1)
    ensures var m, n := 2 * (2 * capacity) - 1, 2 * (2 * capacity + 1) - 1;
            var t := |FirstTokens(js, m)|;
            t == 2 * capacity && PastArray(t, Added(js, m, n), capacity, Doubled(capacity, t))
  {
    hide FirstTokens, Added, Ones, Doubled;
    OnesInTwo(js, 2 * capacity, 1);
    DoubledLaws(capacity, 2 * capacity);
  }

  /** With room for one token, "1 1" leaves two tokens in two slots, and going on over a third writes past them. */
  method ShortestOverrun() returns (r: int)
    ensures r == OVERRUN
  {
    hide FirstTokens, Added, Doubled, Second;
    var tokens;
    OverrunInput("1 1 1\0", 1);
    r, tokens := ParseAgain("1 1 1\0", 3, 5, 1, 1);
  }

  /** With room for two, "1 1 1" leaves three tokens in four slots, and going on over a fourth loses the third. */
  method ShortestLoss() returns (r: int, tokens: seq<Token>)
    ensures r != OVERRUN && tokens != Flat(Second("1 1 1 1\0", 5, 7).zip)
  {
    hide FirstTokens, Added, Second;
    OnesInTwo("1 1 1 1\0", 3, 1);
    r, tokens := ParseAgain("1 1 1 1\0", 5, 7, 2, 2);
  }
}
