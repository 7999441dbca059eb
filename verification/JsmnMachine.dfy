/**
  What jsmn_parse computes, stated without the token array: a machine that reads
  lexemes and keeps an explicit bracket stack (the zipper of JsmnTree).
 */
module JsmnMachine {
  import opened JsmnLexer
  import opened JsmnTree
  import opened Basics

  /** One lexeme at position `p`; None when a closing bracket does not match the innermost open one. */
  function Shift(z: Zip, item: Lexeme, p: nat): Option<Zip> {
    match item
    case Blank => Some(z)
    case Open(kind) => Some(In(z, kind, p, []))
    case Scalar(kind, start, end) => Some(AddChild(z, Item(kind, start, end)))
    case Close(kind) =>
      if z.In? && z.kind == kind then Some(AddChild(z.up, Branch(kind, z.start, p + 1, z.kids)))
      else None
  }

  datatype Outcome = Outcome(status: Status, pos: nat, zip: Zip)

  predicate AtEnd(js: string, len: nat, p: nat)
    requires Readable(js, len)
  {
    p >= len || js[p] == '\0'
  }

  /** The whole parse, from position `p` with the containers of `z` open. */
  function Run(js: string, len: nat, p: nat, z: Zip): Outcome
    requires Readable(js, len)
    decreases len - p
  {
    if AtEnd(js, len, p) then Outcome(if z.Root? then Done else Partial, p, z)
    else
      match Lex(js, len, p)
      case Stuck(why) => Outcome(why, p, z)
      case Lexed(item, next) =>
        match Shift(z, item, p)
        case None => Outcome(Invalid, p, z)
        case Some(z') => Run(js, len, next, z')
  }

  /** One round of it. */
  lemma RunStep(js: string, len: nat, p: nat, z: Zip)
    requires Readable(js, len)
    ensures AtEnd(js, len, p) ==> Run(js, len, p, z) == Outcome(if z.Root? then Done else Partial, p, z)
    ensures !AtEnd(js, len, p) ==>
              var step := Lex(js, len, p);
              && (step.Stuck? ==> Run(js, len, p, z) == Outcome(step.why, p, z))
              && (step.Lexed? && Shift(z, step.item, p).None? ==> Run(js, len, p, z) == Outcome(Invalid, p, z))
              && (step.Lexed? && Shift(z, step.item, p).Some? ==>
                    Run(js, len, p, z) == Run(js, len, step.next, Shift(z, step.item, p).value))
  {
    hide Lex, Shift;
  }

  datatype Tally = Tally(status: Status, pos: nat, count: nat)

  /** What the parse computes when it is given no token array: it only lexes and counts. */
  function Count(js: string, len: nat, p: nat): Tally
    requires Readable(js, len)
    decreases len - p
  {
    if AtEnd(js, len, p) then Tally(Done, p, 0)
    else
      match Lex(js, len, p)
      case Stuck(why) => Tally(why, p, 0)
      case Lexed(item, next) =>
        var rest := Count(js, len, next);
        if item.Open? || item.Scalar? then rest.(count := rest.count + 1) else rest
  }
}
