/**
  The jsmn tokenizer as it is written: a parser object whose fields and token
  array are updated in place, with the innermost open container found by
  scanning the array backwards.  Every method is proved against JsmnMachine.
 */
module JsmnParser {
  import opened JsmnLexer
  import opened JsmnTree
  import opened JsmnMachine
  import opened JsmnPool
  import opened Basics
  import JsmnStructure

  const NOMEM: int := -1
  const INVAL: int := -2
  const PART: int := -3
  /** Stands for a write past the array, after which the C code promises nothing. */
  const OVERRUN: int := -4

  function Code(s: Status, count: nat): int {
    match s
    case Done => count
    case Invalid => INVAL
    case Partial => PART
  }

  class Parser {
    var pos: nat
    var toknext: nat
    var toksuper: int
    /** The caller's token array; null asks for a count only. */
    var tokens: array?<Token>
    /** How many tokens the running call takes the array to have: its argument, doubled with the array. */
    var numTokens: nat
    /** The containers and children seen so far, as long as the array is intact. */
    ghost var zip: Zip
    /** No token has been lost to a number that did not count it. */
    ghost var intact: bool
    /** A token that has been lost. */
    ghost var lost: nat
    /** Tokens moved by all array doublings so far. */
    ghost var copied: nat

    /** The array holds the tokens in use: those of the zipper, or with the one lost left blank. */
    ghost predicate Valid()
      reads this, tokens
    {
      if tokens == null then toknext == 0 && toksuper == -1 && zip == Root([]) && intact
      else
        && Bounded() && Marked()
        && (intact ==> toksuper == Super(zip) && tokens[..toknext] == Flat(zip))
    }

    ghost predicate Bounded()
      reads this
    {
      tokens != null && toknext <= tokens.Length && -1 <= toksuper < toknext
    }

    /** Only the first token of a text can start at 0, so a lost one shows. */
    ghost predicate Marked()
      reads this, tokens
    {
      !intact ==> tokens != null && 0 < lost < toknext <= tokens.Length && tokens[lost].start == 0
    }

    ghost function Numbers(): Gauge
      requires tokens != null
      reads this
    {
      Gauge(toknext, numTokens, tokens.Length)
    }

    /** jsmn_init, with the array the caller will pass. */
    constructor (tokens: array?<Token>)
      ensures Valid() && intact && this.tokens == tokens
      ensures pos == 0 && toknext == 0 && toksuper == -1 && zip == Root([]) && copied == 0
    {
      pos, toknext, toksuper := 0, 0, -1;
      this.tokens, numTokens := tokens, 0;
      zip, intact, lost, copied := Root([]), true, 0, 0;
    }

    /** At most one slot was handed out, by the rules of the pool. */
    twostate predicate Advanced()
      reads this
    {
      && (tokens == old(tokens) || fresh(tokens))
      && ((tokens == null) <==> (old(tokens) == null))
      && copied - old(copied) == numTokens - old(numTokens)
      && (if toknext == old(toknext) then tokens == old(tokens) && numTokens == old(numTokens) && intact == old(intact)
          else
            && tokens != null && old(tokens) != null
            && Take(old(Numbers())) == Some(Numbers())
            && intact == (old(intact) && Counted(old(Numbers()))))
    }

    /** Doubles the array when it is taken to be full, copying as many tokens as it is taken to have. */
    method Enlarge(canAlloc: nat -> bool) returns (ok: bool)
      requires tokens != null && toknext <= tokens.Length
      modifies this`tokens, this`numTokens, this`copied
      ensures tokens != null
      ensures !ok ==> !canAlloc(2 * numTokens)
      ensures !ok || toknext < old(numTokens) ==> tokens == old(tokens) && numTokens == old(numTokens)
      ensures ok && toknext >= old(numTokens) ==>
                && fresh(tokens) && tokens.Length == numTokens == 2 * old(numTokens)
                && tokens[..old(numTokens)] == old(tokens[..numTokens])
                && forall i :: old(numTokens) <= i < tokens.Length ==> tokens[i] == BLANK
      ensures copied - old(copied) == numTokens - old(numTokens)
    {
      if toknext >= numTokens {
        var newCount := 2 * numTokens;
        if !canAlloc(newCount) {
          return false;
        }
        var region := new Token[newCount](_ => BLANK);
        forall i | 0 <= i < numTokens {
          region[i] := tokens[i];
        }
        assert region[..numTokens] == tokens[..numTokens];
        tokens := region;
        copied := copied + numTokens;
        numTokens := newCount;
      }
      ok := true;
    }

    /**
      Takes the next free slot, doubling the array when it is taken to be full; NOMEM when that allocation
      fails, OVERRUN when the slot lies past the array.  Tokens in use are kept if the number counts them;
      otherwise one at least is blank afterwards.
     */
    method AllocToken(canAlloc: nat -> bool) returns (index: int)
      requires tokens != null && toknext <= tokens.Length && Marked()
      modifies this`tokens, this`toknext, this`numTokens, this`copied, this`intact, this`lost, tokens
      ensures tokens != null
      ensures index == NOMEM || index == OVERRUN || index == old(toknext)
      ensures index == NOMEM ==> !canAlloc(2 * numTokens) && Advanced() && toknext == old(toknext) && lost == old(lost)
      ensures index == NOMEM ==> tokens[..] == old(tokens[..])
      ensures index == OVERRUN ==> Take(old(Numbers())).None?
      ensures index >= 0 ==> Advanced() && toknext == index + 1 <= tokens.Length
      ensures index >= 0 ==> Marked() && (!intact ==> lost < index)
      ensures index >= 0 && Counted(old(Numbers())) ==> tokens[..index] == old(tokens[..toknext])
      ensures index >= 0 ==> tokens[index].start == -1 && tokens[index].end == -1 && tokens[index].size == 0
    {
      ghost var before, number := tokens[..toknext], numTokens;
      var ok := Enlarge(canAlloc);
      if !ok {
        return NOMEM;
      }
      if toknext >= tokens.Length {
        return OVERRUN;
      }
      assert number >= toknext ==> tokens[..toknext] == before;
      if toknext > number {
        intact, lost := false, number;
      } else {
        assert !intact ==> tokens[lost] == before[lost];
      }
      ClearNext();
      index := toknext - 1;
    }

    /** Clears the next slot, which is there, and takes it into use. */
    method ClearNext()
      requires tokens != null && toknext < tokens.Length
      modifies this`toknext, tokens
      ensures toknext == old(toknext) + 1
      ensures tokens[..old(toknext)] == old(tokens[..toknext])
      ensures forall i :: 0 <= i < old(toknext) ==> tokens[i] == old(tokens[i])
      ensures var t := tokens[old(toknext)]; t.start == -1 && t.end == -1 && t.size == 0
    {
      tokens[toknext] := tokens[toknext].(start := -1, end := -1, size := 0);
      toknext := toknext + 1;
    }

    /** Adds one leaf token; the caller counts it in its parent. */
    method FillToken(kind: TokenType, start: nat, end: nat, canAlloc: nat -> bool) returns (r: int)
      requires tokens != null && toknext <= tokens.Length && Marked()
      modifies this`tokens, this`numTokens, this`toknext, this`copied, this`intact, this`lost, tokens
      ensures tokens != null
      ensures r == 0 || r == NOMEM || r == OVERRUN
      ensures r == OVERRUN ==> Take(old(Numbers())).None?
      ensures r == NOMEM ==> !canAlloc(2 * numTokens) && Advanced() && toknext == old(toknext) && lost == old(lost)
      ensures r == NOMEM ==> tokens[..] == old(tokens[..])
      ensures r == 0 ==> Advanced() && toknext == old(toknext) + 1 <= tokens.Length && Marked()
      ensures r == 0 && Counted(old(Numbers())) ==> tokens[..toknext] == old(tokens[..toknext]) + [Token(kind, start, end, 0)]
    {
      hide Take;
      var i := AllocToken(canAlloc);
      if i < 0 {
        return i;
      }
      ghost var before := tokens[..i];
      tokens[i] := Token(kind, start, end, 0);
      assert tokens[..toknext] == before + [tokens[i]];
      r := 0;
    }

    method ParsePrimitive(js: string, len: nat, canAlloc: nat -> bool) returns (r: int)
      requires Readable(js, len) && pos < len && js[pos] != '\0'
      requires !Delimiter(js[pos])
      requires tokens != null ==> toknext <= tokens.Length && Marked()
      requires tokens == null ==> toknext == 0
      modifies this`pos, this`tokens, this`numTokens, this`toknext, this`copied, this`intact, this`lost, tokens
      ensures (tokens == null) <==> (old(tokens) == null)
      ensures r == 0 || r == NOMEM || r == INVAL || r == OVERRUN
      ensures r == INVAL <==> ScanPrimitive(js, len, old(pos)).Bad?
      ensures r == 0 ==> ScanPrimitive(js, len, old(pos)) == Ends(pos + 1)
      ensures r == OVERRUN ==> tokens != null && old(tokens) != null && Take(old(Numbers())).None?
      ensures r == NOMEM ==> tokens != null && !canAlloc(2 * numTokens)
      ensures r != OVERRUN ==> Advanced()
      ensures r < 0 && r != OVERRUN ==> pos == old(pos) && toknext == old(toknext) && lost == old(lost)
      ensures r < 0 && r != OVERRUN && tokens != null ==> tokens[..] == old(if tokens == null then [] else tokens[..])
      ensures tokens == null ==> toknext == 0
      ensures r == 0 && tokens != null ==> toknext == old(toknext) + 1 <= tokens.Length && Marked()
      ensures r == 0 && tokens != null && old(tokens) != null && Counted(old(Numbers())) ==>
                tokens[..toknext] == old(if tokens == null then [] else tokens[..toknext])
                                     + [Token(Primitive, old(pos), pos + 1, 0)]
    {
      var start := pos;
      while pos < len && js[pos] != '\0'
        invariant start <= pos <= len
        invariant pos == start ==> !Delimiter(js[pos])
        invariant ScanPrimitive(js, len, start) == ScanPrimitive(js, len, pos)
        modifies this`pos
      {
        if Delimiter(js[pos]) {
          break;
        }
        if !Printable(js[pos]) {
          pos := start;
          return INVAL;
        }
        pos := pos + 1;
      }
      if tokens == null {
        pos := pos - 1;
        return 0;
      }
      r := FillToken(Primitive, start, pos, canAlloc);
      if r < 0 {
        pos := start;
        return;
      }
      pos := pos - 1;
    }

    method ParseString(js: string, len: nat, canAlloc: nat -> bool) returns (r: int)
      requires Readable(js, len) && pos < len && js[pos] == '\"'
      requires tokens != null ==> toknext <= tokens.Length && Marked()
      requires tokens == null ==> toknext == 0
      modifies this`pos, this`tokens, this`numTokens, this`toknext, this`copied, this`intact, this`lost, tokens
      ensures (tokens == null) <==> (old(tokens) == null)
      ensures r == 0 || r == NOMEM || r == INVAL || r == PART || r == OVERRUN
      ensures r == INVAL <==> ScanString(js, len, old(pos) + 1).Bad?
      ensures r == PART <==> ScanString(js, len, old(pos) + 1).Cut?
      ensures r == 0 ==> ScanString(js, len, old(pos) + 1) == Ends(pos)
      ensures r == OVERRUN ==> tokens != null && old(tokens) != null && Take(old(Numbers())).None?
      ensures r == NOMEM ==> tokens != null && !canAlloc(2 * numTokens)
      ensures r != OVERRUN ==> Advanced()
      ensures r < 0 && r != OVERRUN ==> pos == old(pos) && toknext == old(toknext) && lost == old(lost)
      ensures r < 0 && r != OVERRUN && tokens != null ==> tokens[..] == old(if tokens == null then [] else tokens[..])
      ensures tokens == null ==> toknext == 0
      ensures r == 0 && tokens != null ==> toknext == old(toknext) + 1 <= tokens.Length && Marked()
      ensures r == 0 && tokens != null && old(tokens) != null && Counted(old(Numbers())) ==>
                tokens[..toknext] == old(if tokens == null then [] else tokens[..toknext])
                                     + [Token(String, old(pos) + 1, pos, 0)]
    {
      var start := pos;
      pos := pos + 1;
      while pos < len && js[pos] != '\0' && js[pos] != '\"'
        invariant start < pos < |js|
        invariant ScanString(js, len, start + 1) == ScanString(js, len, pos)
        decreases |js| - pos
        modifies this`pos
      {
        if js[pos] == '\\' {
          var next := ParseEscape(js, pos);
          if next == -1 {
            pos := start;
            return INVAL;
          }
          pos := next;
        } else {
          pos := pos + 1;
        }
      }
      if pos >= len || js[pos] == '\0' {
        pos := start;
        return PART;
      }
      if tokens == null {
        return 0;
      }
      r := FillToken(String, start + 1, pos, canAlloc);
      if r < 0 {
        pos := start;
      }
    }

    /** The escape that the backslash at `at` opens: the position after it, or -1. */
    method ParseEscape(js: string, at: nat) returns (next: int)
      requires at + 1 < |js| && js[|js| - 1] == '\0' && js[at] == '\\'
      ensures next == -1 || at < next < |js|
      ensures SimpleEscape(js[at + 1]) ==> next == at + 2
      ensures js[at + 1] == 'u' ==>
                if SkipHex(js, at + 2, 4).Ends? then next == SkipHex(js, at + 2, 4).at else next == -1
      ensures !SimpleEscape(js[at + 1]) && js[at + 1] != 'u' ==> next == -1
    {
      var p := at + 1;
      if SimpleEscape(js[p]) {
      } else if js[p] == 'u' {
        p := p + 1;
        var i := 0;
        while i < 4 && js[p] != '\0'
          invariant 0 <= i <= 4 && at + 2 <= p < |js|
          invariant SkipHex(js, at + 2, 4) == SkipHex(js, p, 4 - i)
        {
          if !Hex(js[p]) {
            return -1;
          }
          p := p + 1;
          i := i + 1;
        }
        p := p - 1;
      } else {
        return -1;
      }
      return p + 1;
    }

    /** Scans back from `from` for a token that is still open; -1 when there is none. */
    method ScanBack(from: int) returns (i: int)
      requires tokens != null && -1 <= from < toknext <= tokens.Length
      ensures -1 <= i <= from
      ensures forall k :: i < k <= from ==> tokens[k].start == -1 || tokens[k].end != -1
      ensures i >= 0 ==> tokens[i].start != -1 && tokens[i].end == -1
    {
      i := from;
      while i >= 0 && !(tokens[i].start != -1 && tokens[i].end == -1)
        invariant -1 <= i <= from
        invariant forall k :: i < k <= from ==> tokens[k].start == -1 || tokens[k].end != -1
      {
        i := i - 1;
      }
    }

    /** Counts the tokens just written after `Flat(zip)` in the container around them. */
    method CountChild(ghost tail: seq<Token>)
      requires Bounded() && Marked()
      requires intact ==> toksuper == Super(zip) && tokens[..toknext] == Flat(zip) + tail
      modifies tokens
      ensures Marked()
      ensures intact ==> tokens[..toknext] == FlatZip(zip, 1) + tail
    {
      hide FlatZip, FlatForest;
      SuperIsLastOpen(zip, 0);
      BumpSuper(zip);
      if toksuper != -1 {
        ghost var before := tokens[..toknext];
        assert tokens[toksuper] == before[toksuper];
        tokens[toksuper] := tokens[toksuper].(size := tokens[toksuper].size + 1);
        assert tokens[..toknext] == before[toksuper := tokens[toksuper]];
      }
    }

    /** An opening bracket: a token of its own, counted in the enclosing container. */
    method OpenBracket(kind: TokenType, canAlloc: nat -> bool) returns (r: int)
      requires Valid() && tokens != null
      modifies this`tokens, this`numTokens, this`toknext, this`copied, this`toksuper, this`zip, this`intact, this`lost, tokens
      ensures tokens != null
      ensures r == 1 || r == NOMEM || r == OVERRUN
      ensures r == OVERRUN ==> Take(old(Numbers())).None?
      ensures r != OVERRUN ==> Valid() && Advanced()
      ensures r == 1 ==> toknext == old(toknext) + 1
      ensures r == 1 && intact ==> zip == In(old(zip), kind, pos, [])
      ensures r == NOMEM ==> zip == old(zip) && toknext == old(toknext) && !canAlloc(2 * numTokens)
    {
      hide FlatZip, FlatForest, Take, Super;
      var i := AllocToken(canAlloc);
      if i < 0 {
        assert i == NOMEM ==> tokens[..toknext] == tokens[..][..toknext];
        return i;
      }
      StartContainer(i, kind);
      r := 1;
    }

    /** Makes the slot just handed out the innermost open container. */
    method StartContainer(i: nat, kind: TokenType)
      requires Bounded() && Marked() && toknext == i + 1 && (!intact ==> lost < i)
      requires tokens[i].start == -1 && tokens[i].end == -1 && tokens[i].size == 0
      requires intact ==> toksuper == Super(zip) && tokens[..i] == Flat(zip)
      modifies this`toksuper, this`zip, tokens
      ensures Valid()
      ensures intact ==> zip == In(old(zip), kind, pos, [])
    {
      hide FlatZip, FlatForest, Super;
      ghost var t := tokens[i];
      assert tokens[..toknext] == tokens[..i] + [t];
      CountChild([t]);
      ghost var before := tokens[..i];
      if intact { OpenedPrefix(tokens[..toknext], t, zip); }
      tokens[i] := tokens[i].(kind := kind, start := pos);
      toksuper := toknext - 1;
      if intact {
        assert tokens[..toknext] == before + [Token(kind, pos, -1, 0)];
        FlatOpen(zip, kind, pos);
        zip := In(zip, kind, pos, []);
      }
    }

    static lemma OpenedPrefix(ts: seq<Token>, t: Token, z: Zip)
      requires ts == FlatZip(z, 1) + [t]
      ensures |ts| == |FlatZip(z, 1)| + 1 && ts[|ts| - 1] == t && ts[..|ts| - 1] == FlatZip(z, 1)
    {
      hide FlatZip;
    }

    /** A closing bracket: scans back for the innermost open token, then for the one around it. */
    method CloseBracket(kind: TokenType) returns (ok: bool)
      requires Valid() && tokens != null
      modifies this`toksuper, this`zip, tokens
      ensures Valid()
      ensures intact ==> ok == (old(zip).In? && old(zip).kind == kind)
      ensures intact && ok ==> zip == AddChild(old(zip).up, Branch(kind, old(zip).start, pos + 1, old(zip).kids))
      ensures !ok ==> zip == old(zip)
    {
      hide FlatZip, FlatForest;
      SuperIsLastOpen(zip, 0);
      var i := LastOpen(toknext - 1, zip);
      if i == -1 || tokens[i].kind != kind {
        return false;
      }
      toksuper := -1;
      FillEnd(i);
      i := LastOpen(i, zip);
      if i >= 0 {
        toksuper := i;
      }
      ok := true;
    }

    /** On the array of a zipper the backwards scan finds its innermost open container. */
    method LastOpen(from: int, ghost z: Zip) returns (i: int)
      requires tokens != null && -1 <= from < toknext <= tokens.Length
      requires intact ==> tokens[..toknext] == Flat(z) && Super(z) <= from
      ensures -1 <= i <= from
      ensures intact ==> i == Super(z)
      ensures intact && i >= 0 ==> z.In? && tokens[i].kind == z.kind
    {
      hide FlatZip, FlatForest;
      SuperIsLastOpen(z, 0);
      ghost var ts := tokens[..toknext];
      assert forall k :: 0 <= k < toknext ==> tokens[k] == ts[k];
      i := ScanBack(from);
    }

    /** Closes the innermost open container, whose token is at `i`. */
    method FillEnd(i: int)
      requires tokens != null && 0 <= i < toknext <= tokens.Length && Marked()
      requires intact ==> zip.In? && i == Super(zip) && tokens[..toknext] == Flat(zip)
      modifies this`zip, tokens
      ensures Marked()
      ensures intact ==> zip == AddChild(old(zip).up, Branch(old(zip).kind, old(zip).start, pos + 1, old(zip).kids))
      ensures intact ==> tokens[..toknext] == Flat(zip) && Super(zip) <= i
    {
      hide FlatZip, FlatForest;
      ghost var before := tokens[..toknext];
      tokens[i] := tokens[i].(end := pos + 1);
      assert tokens[..toknext] == before[i := tokens[i]];
      if intact {
        FlatClose(zip, pos + 1);
        SuperIsLastOpen(zip.up, 1);
        zip := AddChild(zip.up, Branch(zip.kind, zip.start, pos + 1, zip.kids));
      }
    }

    /** Counts the leaf just written. */
    method ShiftLeaf(ghost leaf: Node)
      requires Bounded() && Marked() && leaf.Item?
      requires intact ==> toksuper == Super(zip) && tokens[..toknext] == Flat(zip) + FlatNode(leaf)
      modifies this`zip, tokens
      ensures Valid()
      ensures intact ==> zip == AddChild(old(zip), leaf)
    {
      hide FlatZip, FlatForest;
      CountChild(FlatNode(leaf));
      if intact {
        FlatAddChild(zip, leaf);
        zip := AddChild(zip, leaf);
      }
    }

    /** A quote or any other unstructured character: one leaf, or the reason there is none. */
    method ParseScalar(js: string, len: nat, canAlloc: nat -> bool) returns (r: int)
      requires Valid() && tokens != null && Readable(js, len) && pos < len && js[pos] != '\0'
      requires js[pos] == '\"' || !Delimiter(js[pos])
      modifies this`pos, this`tokens, this`numTokens, this`toknext, this`copied, this`zip, this`intact, this`lost, tokens
      ensures tokens != null
      ensures r == NOMEM || r == INVAL || r == PART || r == OVERRUN || r == 1
      ensures r == OVERRUN ==> Take(old(Numbers())).None?
      ensures r != OVERRUN ==> Valid() && Advanced()
      ensures r < 0 && r != OVERRUN ==> pos == old(pos) && zip == old(zip) && toknext == old(toknext)
      ensures r == NOMEM ==> !canAlloc(2 * numTokens)
      ensures r == 1 ==> toknext == old(toknext) + 1
      ensures js[old(pos)] == '\"' ==>
                var scan := ScanString(js, len, old(pos) + 1);
                && (r == INVAL ==> scan.Bad?) && (r == PART ==> scan.Cut?) && (r == OVERRUN ==> scan.Ends?)
                && (r == 1 ==> scan == Ends(pos) && (intact ==> zip == AddChild(old(zip), Item(String, old(pos) + 1, pos))))
      ensures js[old(pos)] != '\"' ==>
                var scan := ScanPrimitive(js, len, old(pos));
                && (r == INVAL ==> scan.Bad?) && r != PART && (r == OVERRUN ==> scan.Ends?)
                && (r == 1 ==> scan == Ends(pos + 1) && (intact ==> zip == AddChild(old(zip), Item(Primitive, old(pos), pos + 1))))
    {
      hide FlatZip, FlatForest, Take;
      ghost var start, kind := pos, Primitive;
      if js[pos] == '\"' {
        start, kind := pos + 1, String;
        r := ParseString(js, len, canAlloc);
      } else {
        r := ParsePrimitive(js, len, canAlloc);
      }
      if r < 0 {
        assert r != OVERRUN ==> tokens[..toknext] == tokens[..][..toknext];
        return;
      }
      ShiftLeaf(Item(kind, start, if kind == String then pos else pos + 1));
      r := 1;
    }

    /** One round of the parse loop, when there is an array: the lexeme at `pos` is shifted. */
    method ParseLexeme(js: string, len: nat, canAlloc: nat -> bool) returns (r: int)
      requires Valid() && tokens != null && Readable(js, len) && pos < len && js[pos] != '\0'
      modifies this, tokens
      ensures tokens != null
      ensures r == NOMEM || r == INVAL || r == PART || r == OVERRUN || r == 0 || r == 1
      ensures r == OVERRUN ==> Take(old(Numbers())).None?
      ensures r != OVERRUN ==> Valid() && Advanced()
      ensures r < 0 && r != OVERRUN ==> pos == old(pos) && zip == old(zip) && toknext == old(toknext)
      ensures r == NOMEM ==> !canAlloc(2 * numTokens)
      ensures r >= 0 ==> toknext - old(toknext) == r
      ensures var step := Lex(js, len, old(pos));
              && (r == OVERRUN || r == 1 ==> step.Lexed? && (step.item.Open? || step.item.Scalar?))
              && (r >= 0 ==> step.Lexed? && pos + 1 == step.next)
              && (r >= 0 && intact ==> Shift(old(zip), step.item, old(pos)) == Some(zip))
              && (r == PART ==> step == Stuck(Partial))
              && (r == INVAL && intact ==> step == Stuck(Invalid) || (step.Lexed? && Shift(zip, step.item, pos).None?))
    {
      hide FlatZip, FlatForest, Take;
      var c := js[pos];
      if c == '{' || c == '[' {
        r := OpenBracket(if c == '{' then Object else Array, canAlloc);
      } else if c == '}' || c == ']' {
        var ok := CloseBracket(if c == '}' then Object else Array);
        r := if ok then 0 else INVAL;
      } else if c == '\t' || c == '\r' || c == '\n' || c == ':' || c == ',' || c == ' ' {
        r := 0;
      } else {
        r := ParseScalar(js, len, canAlloc);
      }
    }

    /** One round of the parse loop when there is no array. */
    method CountLexeme(js: string, len: nat) returns (r: int)
      requires Valid() && tokens == null && Readable(js, len) && pos < len && js[pos] != '\0'
      modifies this
      ensures Valid() && tokens == null
      ensures r == INVAL || r == PART || r == 0 || r == 1
      ensures var step := Lex(js, len, old(pos));
              if r >= 0 then
                && step.Lexed? && pos + 1 == step.next
                && (r == 1 <==> step.item.Open? || step.item.Scalar?)
              else
                && pos == old(pos)
                && step == Stuck(if r == PART then Partial else Invalid)
    {
      var c := js[pos];
      r := 0;
      if c == '{' || c == '[' {
        r := 1;
      } else if c == '}' || c == ']' {
      } else if c == '\"' {
        r := ParseString(js, len, _ => true);
        r := if r < 0 then r else 1;
      } else if c == '\t' || c == '\r' || c == '\n' || c == ':' || c == ',' || c == ' ' {
      } else {
        r := ParsePrimitive(js, len, _ => true);
        r := if r < 0 then r else 1;
      }
    }

    /** The parse when there is no array: it only counts. */
    method CountOnly(js: string, len: nat) returns (r: int)
      requires Valid() && tokens == null && Readable(js, len)
      modifies this
      ensures Valid() && tokens == null
      ensures var t := Count(js, len, old(pos)); r == Code(t.status, t.count) && pos == t.pos
    {
      hide Lex;
      var count := 0;
      while pos < len && js[pos] != '\0'
        invariant Valid() && tokens == null
        invariant var t := Count(js, len, pos); Count(js, len, old(pos)) == t.(count := t.count + count)
        decreases len - pos
      {
        r := CountLexeme(js, len);
        if r < 0 {
          return;
        }
        count := count + r;
        pos := pos + 1;
      }
      r := count;
    }

    /** What `k` tokens taken since a call began with the number `n` have done. */
    twostate predicate Taken(n: nat)
      reads this
    {
      && tokens != null && old(tokens) != null && (tokens == old(tokens) || fresh(tokens))
      && copied - old(copied) == numTokens - n
      && old(toknext) <= toknext
      && TakeAll(Gauge(old(toknext), n, old(tokens.Length)), toknext - old(toknext)) == Some(Numbers())
      && intact == (old(intact) && (toknext == old(toknext) || old(toknext) <= n))
    }

    /**
      The parse.  Without a token array it counts.  With one, and whatever number of tokens it is given:
      slots are handed out by the rules of the pool, and the array stays intact exactly if the number
      counts the tokens in use or none is added.  An intact array, position and result are exactly those
      of the machine, unless an allocation fails, in which case it stops at a state the same run passes
      through.  A slot past the array is asked for only if the tokens of the run do not fit the pool.
     */
    method Parse(js: string, len: nat, numTokens: nat, canAlloc: nat -> bool) returns (r: int)
      requires Valid() && Readable(js, len)
      modifies this, tokens
      ensures (tokens == null) <==> (old(tokens) == null)
      ensures tokens == null ==>
                Valid() && var t := Count(js, len, old(pos)); r == Code(t.status, t.count) && pos == t.pos
      ensures tokens != null && r != OVERRUN ==> Valid() && Taken(numTokens)
      ensures tokens != null && intact && r != NOMEM && r != OVERRUN ==>
                var o := Run(js, len, old(pos), old(zip));
                zip == o.zip && pos == o.pos && r == Code(o.status, toknext - old(toknext))
      ensures r == NOMEM ==> tokens != null && !canAlloc(2 * this.numTokens)
      ensures r == NOMEM && intact ==> Run(js, len, pos, zip) == Run(js, len, old(pos), old(zip))
      ensures r == OVERRUN ==> tokens != null && old(tokens) != null
      ensures tokens != null && old(tokens) != null && old(intact) ==>
                var added := |Flat(Run(js, len, old(pos), old(zip)).zip)| - old(toknext);
                && added >= 0
                && (r == OVERRUN ==> TakeAll(Gauge(old(toknext), numTokens, old(tokens.Length)), added).None?)
                && (r != OVERRUN && !intact ==> added > 0)
    {
      if tokens == null {
        r := CountOnly(js, len);
      } else {
        this.numTokens := numTokens;
        r := Fill(js, len, canAlloc);
      }
    }

    /** The parse when there is an array. */
    method Fill(js: string, len: nat, canAlloc: nat -> bool) returns (r: int)
      requires Valid() && tokens != null && Readable(js, len)
      modifies this, tokens
      ensures tokens != null
      ensures r != OVERRUN ==> Valid() && Taken(old(numTokens))
      ensures intact && r != NOMEM && r != OVERRUN ==>
                var o := Run(js, len, old(pos), old(zip));
                zip == o.zip && pos == o.pos && r == Code(o.status, toknext - old(toknext))
      ensures r == NOMEM ==> !canAlloc(2 * numTokens)
      ensures r == NOMEM && intact ==> Run(js, len, pos, zip) == Run(js, len, old(pos), old(zip))
      ensures old(intact) ==>
                var added := |Flat(Run(js, len, old(pos), old(zip)).zip)| - old(toknext);
                && added >= 0
                && (r == OVERRUN ==> TakeAll(old(Numbers()), added).None?)
                && (r != OVERRUN && !intact ==> added > 0)
    {
      hide FlatZip, FlatForest, Lex, Shift, Take, TakeAll, Run, Super;
      ghost var total := |Flat(Run(js, len, pos, zip).zip)|;
      if intact { JsmnStructure.RunGrows(js, len, pos, zip); }
      ghost var before := Numbers();
      NoneTaken(before);
      var count := 0;
      while pos < len && js[pos] != '\0'
        invariant tokens != null && Valid() && Taken(old(numTokens)) && count == toknext - old(toknext)
        invariant intact ==> Run(js, len, pos, zip) == Run(js, len, old(pos), old(zip))
        invariant old(intact) && !intact ==> total > old(toknext)
        decreases len - pos
      {
        ghost var p, z, whole := pos, zip, intact;
        r := ParseLexeme(js, len, canAlloc);
        RunStep(js, len, p, z);
        if r == OVERRUN || r == 1 {
          if whole { JsmnStructure.RunTakesMore(js, len, p, z); }
          TakesOn(before, count, total - before.toknext);
        }
        if r < 0 {
          return;
        }
        count := count + r;
        pos := pos + 1;
      }
      RunStep(js, len, pos, zip);
      var open := AnyOpen();
      if open {
        return PART;
      }
      r := count;
    }

    /** The scan at the end of a parse. */
    method AnyOpen() returns (open: bool)
      requires Valid() && tokens != null
      ensures intact ==> open == zip.In?
    {
      hide FlatZip, FlatForest;
      SuperIsLastOpen(zip, 0);
      var i := LastOpen(toknext - 1, zip);
      open := i >= 0;
    }

    static lemma NoneTaken(g: Gauge)
      ensures TakeAll(g, 0) == Some(g)
    {
    }

    /** After `k` slots the number counts the tokens, and if the next is past the array so is every later one. */
    static lemma TakesOn(g: Gauge, k: nat, later: int)
      requires TakeAll(g, k).Some? && g.toknext <= g.length
      ensures k > 0 ==> Counted(TakeAll(g, k).value)
      ensures TakeAll(g, k + 1) == Take(TakeAll(g, k).value)
      ensures Take(TakeAll(g, k).value).None? && later > k ==> TakeAll(g, later).None?
      ensures Take(TakeAll(g, k).value).None? && k > 0 ==> g.numTokens > g.length
      ensures k > 0 && g.numTokens <= g.length && later > 0 ==> TakeAll(g, later).Some?
    {
      hide Take;
      RoomExactly(g, k);
      RoomExactly(g, k + 1);
      if k > 0 { TakenCounted(g, k); }
      if later >= 0 { RoomExactly(g, later); }
    }
  }
}
