/**
  Trees of tokens, and the flat array that jsmn writes for them.

  A parse in progress is a zipper: the frames of the containers still open,
  innermost first, each with the children completed so far.  `Flat` is the
  token array of a zipper: pre-order, an open container carrying end == -1.
 */
module JsmnTree {
  import opened JsmnLexer

  datatype Token = Token(kind: TokenType, start: int, end: int, size: int)

  datatype Node =
    | Item(kind: TokenType, start: nat, end: nat)
    | Branch(kind: TokenType, start: nat, end: nat, kids: seq<Node>)

  datatype Zip =
    | Root(kids: seq<Node>)
    | In(up: Zip, kind: TokenType, start: nat, kids: seq<Node>)

  /** Pre-order token list of one complete node. */
  function FlatNode(n: Node): (ts: seq<Token>)
    ensures |ts| >= 1
    decreases n
  {
    match n
    case Item(kind, start, end) => [Token(kind, start, end, 0)]
    case Branch(kind, start, end, kids) => [Token(kind, start, end, |kids|)] + FlatForest(kids)
  }

  function FlatForest(ns: seq<Node>): seq<Token>
    decreases ns
  {
    if ns == [] then []
    else FlatForest(ns[..|ns| - 1]) + FlatNode(ns[|ns| - 1])
  }

  /** Tokens of a zipper whose innermost container has `extra` children in progress. */
  function FlatZip(z: Zip, extra: nat): seq<Token>
    decreases z
  {
    match z
    case Root(kids) => FlatForest(kids)
    case In(up, kind, start, kids) =>
      FlatZip(up, 1) + [Token(kind, start, -1, |kids| + extra)] + FlatForest(kids)
  }

  function Flat(z: Zip): seq<Token> {
    FlatZip(z, 0)
  }

  /** Index of the innermost open container, the parser's `toksuper`; -1 at the top level. */
  function Super(z: Zip): int {
    match z
    case Root(_) => -1
    case In(up, _, _, _) => |FlatZip(up, 1)|
  }

  function AddChild(z: Zip, n: Node): Zip {
    z.(kids := z.kids + [n])
  }

  // ----- how the flat array follows the zipper

  lemma {:induction false} ForestClosed(ns: seq<Node>)
    ensures forall t :: t in FlatForest(ns) ==> t.end >= 0 && t.start >= 0
    decreases ns
  {
    if ns != [] {
      ForestClosed(ns[..|ns| - 1]);
      NodeClosed(ns[|ns| - 1]);
    }
  }

  lemma {:induction false} NodeClosed(n: Node)
    ensures forall t :: t in FlatNode(n) ==> t.end >= 0 && t.start >= 0
    decreases n
  {
    if n.Branch? { ForestClosed(n.kids); }
  }

  lemma {:induction false} ForestSnoc(ns: seq<Node>, n: Node)
    ensures FlatForest(ns + [n]) == FlatForest(ns) + FlatNode(n)
  {
    assert (ns + [n])[..|ns|] == ns;
  }

  lemma ForestEmpty()
    ensures FlatForest([]) == []
  {
  }

  lemma {:induction false} ForestConcat(a: seq<Node>, b: seq<Node>)
    ensures FlatForest(a + b) == FlatForest(a) + FlatForest(b)
    decreases |b|
  {
    hide *;
    ForestEmpty();
    if b == [] {
      assert a + b == a;
    } else {
      var b', n := b[..|b| - 1], b[|b| - 1];
      ForestConcat(a, b');
      assert a + b == (a + b') + [n] && b == b' + [n];
      ForestSnoc(a + b', n);
      ForestSnoc(b', n);
      assert (FlatForest(a) + FlatForest(b')) + FlatNode(n) == FlatForest(a) + (FlatForest(b') + FlatNode(n));
    }
  }

  /** Counting one more child in the innermost container is one in-place increment. */
  lemma {:induction false} BumpSuper(z: Zip)
    ensures z.Root? ==> FlatZip(z, 1) == Flat(z)
    ensures z.In? ==> 0 <= Super(z) < |Flat(z)|
    ensures z.In? ==> var t := Flat(z)[Super(z)];
                      FlatZip(z, 1) == Flat(z)[Super(z) := t.(size := t.size + 1)]
  {
  }

  /** A finished child is appended to the array after its parent's count was bumped. */
  lemma {:induction false} FlatAddChild(z: Zip, n: Node)
    ensures Flat(AddChild(z, n)) == FlatZip(z, 1) + FlatNode(n)
  {
    ForestSnoc(z.kids, n);
    if z.In? {
      var head := FlatZip(z.up, 1) + [Token(z.kind, z.start, -1, |z.kids| + 1)];
      assert head + (FlatForest(z.kids) + FlatNode(n)) == (head + FlatForest(z.kids)) + FlatNode(n);
    }
  }

  lemma {:induction false} FlatOpen(z: Zip, kind: TokenType, start: nat)
    ensures Flat(In(z, kind, start, [])) == FlatZip(z, 1) + [Token(kind, start, -1, 0)]
    ensures Super(In(z, kind, start, [])) == |FlatZip(z, 1)|
  {
  }

  /** Closing the innermost container only fills in its end. */
  lemma {:induction false} FlatClose(z: Zip, end: nat)
    requires z.In?
    ensures 0 <= Super(z) < |Flat(z)|
    ensures Flat(AddChild(z.up, Branch(z.kind, z.start, end, z.kids)))
         == Flat(z)[Super(z) := Flat(z)[Super(z)].(end := end)]
  {
    FlatAddChild(z.up, Branch(z.kind, z.start, end, z.kids));
  }

  /** `toksuper` is the last token that is still open; every token has a start. */
  lemma {:induction false} SuperIsLastOpen(z: Zip, extra: nat)
    ensures -1 <= Super(z) < |FlatZip(z, extra)|
    ensures forall i :: 0 <= i < |FlatZip(z, extra)| ==> FlatZip(z, extra)[i].start >= 0
    ensures forall i :: Super(z) < i < |FlatZip(z, extra)| ==> FlatZip(z, extra)[i].end >= 0
    ensures z.In? ==> FlatZip(z, extra)[Super(z)] == Token(z.kind, z.start, -1, |z.kids| + extra)
    decreases z
  {
    ForestClosed(z.kids);
    if z.In? { SuperIsLastOpen(z.up, 1); }
  }
}
