/**
  Calling the parser again on a longer prefix of the same buffer: when that is the
  same as parsing the longer prefix in one call.
 */
module JsmnResume {
  import opened JsmnLexer
  import opened JsmnTree
  import opened JsmnMachine
  import opened JsmnStructure

  lemma {:induction false} LongerString(js: string, m: nat, n: nat, i: nat)
    requires m <= n && Readable(js, n)
    ensures ScanString(js, m, i).Cut? || ScanString(js, m, i) == ScanString(js, n, i)
    decreases |js| - i
  {
    if i < m && js[i] != '\0' && js[i] != '\"' {
      if js[i] != '\\' {
        LongerString(js, m, n, i + 1);
      } else if SimpleEscape(js[i + 1]) {
        LongerString(js, m, n, i + 2);
      } else if js[i + 1] == 'u' && SkipHex(js, i + 2, 4).Ends? {
        LongerString(js, m, n, SkipHex(js, i + 2, 4).at);
      }
    }
  }

  /** The character at `m` would carry a primitive on, and a longer text is at hand. */
  predicate Continues(js: string, m: nat, n: nat)
    requires m <= n && Readable(js, n)
  {
    m < n && js[m] != '\0' && !Delimiter(js[m])
  }

  lemma {:induction false} LongerPrimitive(js: string, m: nat, n: nat, i: nat)
    requires i <= m <= n && Readable(js, n)
    ensures || ScanPrimitive(js, m, i) == ScanPrimitive(js, n, i)
            || (&& ScanPrimitive(js, m, i) == Ends(m) && Continues(js, m, n)
                && ScanPrimitive(js, n, i) != Ends(m))
    ensures ScanPrimitive(js, m, i) == Ends(m) ==> ScanPrimitive(js, n, i) == ScanPrimitive(js, n, m)
    decreases m - i
  {
    if i < m && js[i] != '\0' && !Delimiter(js[i]) && Printable(js[i]) {
      LongerPrimitive(js, m, n, i + 1);
    }
  }

  predicate EndsWithPrimitive(ts: seq<Token>, m: int) {
    ts != [] && ts[|ts| - 1].kind == Primitive && ts[|ts| - 1].end == m
  }

  /** The first call stopped inside a primitive: its last token ends where the text was cut. */
  predicate CutsPrimitive(js: string, m: nat, n: nat, ts: seq<Token>)
    requires m <= n && Readable(js, n)
  {
    Continues(js, m, n) && EndsWithPrimitive(ts, m)
  }

  lemma {:induction false} FlatLast(z: Zip, n: Node)
    requires n.Item?
    ensures Flat(AddChild(z, n))[|Flat(z)|..] == FlatNode(n)
    ensures |Flat(AddChild(z, n))| == |Flat(z)| + 1
  {
    FlatAddChild(z, n);
    BumpSuper(z);
  }

  /** Unless a primitive was cut, parsing on is the same as parsing once, whatever the first call returned. */
  lemma {:induction false} Resume(js: string, m: nat, n: nat, p: nat, z: Zip)
    requires m <= n && Readable(js, n)
    requires !CutsPrimitive(js, m, n, Flat(Run(js, m, p, z).zip))
    ensures var o := Run(js, m, p, z);
            Run(js, n, o.pos, o.zip) == Run(js, n, p, z)
    decreases m - p
  {
    if !AtEnd(js, m, p) {
      var step := Lex(js, m, p);
      if step.Lexed? {
        LongerString(js, m, n, p + 1);
        LongerPrimitive(js, m, n, p);
        var z' := Shift(z, step.item, p);
        if z'.Some? {
          if step != Lex(js, n, p) {
            FlatLast(z, Item(Primitive, p, m));
          }
          Resume(js, m, n, step.next, z'.value);
        }
      }
    }
  }

  // ----- the other half: a cut primitive is never repaired

  lemma {:induction false} ShiftKeeps(z: Zip, item: Lexeme, p: nat, k: nat)
    requires k < |Flat(z)| && Flat(z)[k].end != -1 && Shift(z, item, p).Some?
    ensures var ts := Flat(Shift(z, item, p).value);
            k < |ts| && ts[k].end == Flat(z)[k].end
  {
    BumpSuper(z);
    SuperIsLastOpen(z, 0);
    if item.Scalar? {
      FlatAddChild(z, Item(item.kind, item.start, item.end));
    } else if item.Close? {
      FlatClose(z, p + 1);
    }
  }

  /** No later step moves the end of a token once it is closed. */
  lemma {:induction false} RunKeeps(js: string, len: nat, p: nat, z: Zip, k: nat)
    requires Readable(js, len) && k < |Flat(z)| && Flat(z)[k].end != -1
    ensures var ts := Flat(Run(js, len, p, z).zip);
            k < |ts| && ts[k].end == Flat(z)[k].end
    decreases len - p
  {
    if !AtEnd(js, len, p) {
      var step := Lex(js, len, p);
      if step.Lexed? && Shift(z, step.item, p).Some? {
        ShiftKeeps(z, step.item, p, k);
        RunKeeps(js, len, step.next, Shift(z, step.item, p).value, k);
      }
    }
  }

  /** A primitive that was cut at `m` stays cut; parsed in one call it ends elsewhere or is refused. */
  lemma {:induction false} CutStays(js: string, m: nat, n: nat, p: nat, z: Zip)
    requires p < m <= n && Readable(js, n) && !AtEnd(js, m, p)
    requires Lex(js, m, p) == Lexed(Scalar(Primitive, p, m), m) && Lex(js, n, p) != Lex(js, m, p)
    ensures var z' := AddChild(z, Item(Primitive, p, m));
            Flat(Run(js, n, m, z').zip) != Flat(Run(js, n, p, z).zip)
  {
    var k := |Flat(z)|;
    var z' := AddChild(z, Item(Primitive, p, m));
    FlatLast(z, Item(Primitive, p, m));
    assert Flat(z')[k] == Flat(z')[k..][0];
    RunKeeps(js, n, m, z', k);
    var step := Lex(js, n, p);
    if step.Lexed? {
      var z'' := AddChild(z, Item(Primitive, p, step.next));
      FlatLast(z, Item(Primitive, p, step.next));
      assert Flat(z'')[k] == Flat(z'')[k..][0];
      RunKeeps(js, n, step.next, z'', k);
    }
  }

  lemma {:induction false} NoPrimitiveYet(z: Zip, p: nat, m: nat)
    requires PlacedZip(z, p) && p < m
    ensures !EndsWithPrimitive(Flat(z), m)
  {
    ZipOrdered(z, p, 0);
  }

  lemma {:induction false} ShiftPrimitiveEnd(js: string, m: nat, p: nat, z: Zip)
    requires Readable(js, m) && !AtEnd(js, m, p) && PlacedZip(z, p)
    requires Lex(js, m, p).Lexed? && Lex(js, m, p).item != Scalar(Primitive, p, m)
    requires Shift(z, Lex(js, m, p).item, p).Some?
    ensures !EndsWithPrimitive(Flat(Shift(z, Lex(js, m, p).item, p).value), m)
  {
    hide ScanString, ScanPrimitive, SkipHex, FlatZip, FlatForest;
    NoPrimitiveYet(z, p, m);
    ZipOrdered(z, p, 0);
    BumpSuper(z);
    var item := Lex(js, m, p).item;
    if item.Scalar? {
      var leaf := Item(item.kind, item.start, item.end);
      FlatLast(z, leaf);
      var ts := Flat(AddChild(z, leaf));
      assert ts[|ts| - 1] == ts[|Flat(z)|..][0];
    } else if item.Open? {
      FlatOpen(z, item.kind, p);
    } else if item.Close? {
      FlatClose(z, p + 1);
      SuperIsLastOpen(z, 0);
    }
  }

  /** A longer text changes no lexeme except a primitive cut at its end. */
  lemma {:induction false} LongerLex(js: string, m: nat, n: nat, p: nat)
    requires p < m <= n && Readable(js, n) && !AtEnd(js, m, p) && Lex(js, m, p).Lexed?
    ensures var step := Lex(js, m, p);
            && (step.item != Scalar(Primitive, p, m) ==> Lex(js, n, p) == step)
            && (step.item == Scalar(Primitive, p, m) && Continues(js, m, n) ==> Lex(js, n, p) != step)
  {
    LongerString(js, m, n, p + 1);
    LongerPrimitive(js, m, n, p);
  }

  lemma {:induction false} CutSteps(js: string, m: nat, p: nat, z: Zip)
    requires p <= m && Readable(js, m) && PlacedZip(z, p)
    requires p == m ==> !EndsWithPrimitive(Flat(z), m)
    requires EndsWithPrimitive(Flat(Run(js, m, p, z).zip), m)
    ensures !AtEnd(js, m, p) && Lex(js, m, p).Lexed? && Shift(z, Lex(js, m, p).item, p).Some?
  {
    if p < m { NoPrimitiveYet(z, p, m); }
  }

  lemma {:induction false} CutChanges(js: string, m: nat, n: nat, p: nat, z: Zip)
    requires p <= m <= n && Readable(js, n) && PlacedZip(z, p)
    requires p == m ==> !EndsWithPrimitive(Flat(z), m)
    requires CutsPrimitive(js, m, n, Flat(Run(js, m, p, z).zip))
    ensures var o := Run(js, m, p, z);
            Flat(Run(js, n, o.pos, o.zip).zip) != Flat(Run(js, n, p, z).zip)
    decreases m - p
  {
    CutSteps(js, m, p, z);
    LongerLex(js, m, n, p);
    var step := Lex(js, m, p);
    if step.item == Scalar(Primitive, p, m) {
      assert Run(js, m, m, AddChild(z, Item(Primitive, p, m))).zip == AddChild(z, Item(Primitive, p, m));
      CutStays(js, m, n, p, z);
    } else {
      ShiftPlaced(js, m, p, z);
      ShiftPrimitiveEnd(js, m, p, z);
      CutChanges(js, m, n, step.next, Shift(z, step.item, p).value);
    }
  }

  /**
    Parsing to length m and then on to length n leaves what one call to n leaves,
    exactly when the first call did not stop inside a primitive.
   */
  lemma {:induction false} ResumeExactly(js: string, m: nat, n: nat)
    requires m <= n && Readable(js, n)
    ensures var first := Run(js, m, 0, Root([]));
            var again := Run(js, n, first.pos, first.zip);
            var once := Run(js, n, 0, Root([]));
            && (Flat(again.zip) == Flat(once.zip) <==> !CutsPrimitive(js, m, n, Flat(first.zip)))
            && (!CutsPrimitive(js, m, n, Flat(first.zip)) ==> again == once)
  {
    var first := Run(js, m, 0, Root([]));
    if CutsPrimitive(js, m, n, Flat(first.zip)) {
      CutChanges(js, m, n, 0, Root([]));
    } else {
      Resume(js, m, n, 0, Root([]));
    }
  }

  /** Where the cut shows: any two-character primitive read one character at a time. */
  lemma CutExample(js: string)
    requires |js| == 3 && js[2] == '\0'
    requires forall i :: 0 <= i < 2 ==> 'a' <= js[i] <= 'z'
    ensures Readable(js, 2) && CutsPrimitive(js, 1, 2, Flat(Run(js, 1, 0, Root([])).zip))
  {
    hide FlatZip, FlatForest, ScanString;
    assert ScanPrimitive(js, 1, 1) == Ends(1);
    assert ScanPrimitive(js, 1, 0) == Ends(1);
    var item := Item(Primitive, 0, 1);
    var z := AddChild(Root([]), item);
    assert Run(js, 1, 1, z).zip == z;
    assert EndsWithPrimitive(Flat(z), 1) by {
      FlatLast(Root([]), item);
      assert Flat(z)[|Flat(z)| - 1] == Flat(z)[|Flat(Root([]))|..][0];
    }
  }
}
