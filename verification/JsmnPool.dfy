/**
  jsmn's token pool (jsmn_alloc_token in external/jsmn/jsmn.c), as far as numbers go: the tokens in use,
  the number of tokens the caller says there are, and the slots there really are.  The parser doubles the
  caller's number when it is used up but never reports it back, so a caller who goes on with a grown
  array may say less than there is.
 */
module JsmnPool {
  import opened JsmnLexer
  import opened JsmnTree
  import opened Basics

  datatype Gauge = Gauge(toknext: nat, numTokens: nat, length: nat)

  /** A slot as calloc leaves it. */
  const BLANK := Token(Primitive, 0, 0, 0)

  /** The number counts the tokens in use, and no more than there are slots. */
  predicate Honest(g: Gauge) {
    0 < g.numTokens && g.toknext <= g.numTokens <= g.length
  }

  /** The number counts the tokens in use, so that doubling copies them all. */
  predicate Counted(g: Gauge) { g.toknext <= g.numTokens }

  /** Handing out one slot, doubling first if the number is used up; None when the slot would lie past the array. */
  function Take(g: Gauge): Option<Gauge> {
    var room := if g.toknext < g.numTokens then g else g.(numTokens := 2 * g.numTokens, length := 2 * g.numTokens);
    if room.toknext < room.length then Some(room.(toknext := room.toknext + 1)) else None
  }

  function TakeAll(g: Gauge, k: nat): Option<Gauge>
    decreases k
  {
    if k == 0 then Some(g)
    else
      match TakeAll(g, k - 1)
      case None => None
      case Some(h) => Take(h)
  }

  /** After a slot was handed out the number counts the tokens in use again. */
  lemma TakenCounted(g: Gauge, k: nat)
    requires k > 0 && TakeAll(g, k).Some?
    ensures Counted(TakeAll(g, k).value)
  {
  }

  /** Exactly when `k` slots can be handed out without going past the array. */
  lemma {:induction false} RoomExactly(g: Gauge, k: nat)
    requires g.toknext <= g.length
    ensures TakeAll(g, k).Some? <==>
              k == 0 || if g.numTokens <= g.length then g.toknext < 2 * g.numTokens else g.toknext + k <= g.length
    ensures TakeAll(g, k).Some? ==>
              var h := TakeAll(g, k).value;
              && h.toknext == g.toknext + k <= h.length
              && (g.numTokens > g.length ==> h.numTokens == g.numTokens && h.length == g.length)
              && (g.numTokens <= g.length && k > 0 ==> Honest(h))
    decreases k
  {
    if k > 0 { RoomExactly(g, k - 1); }
  }

  // ----- how far an honest number grows

  /** The number of slots after `count` tokens, from `capacity` on. */
  function Doubled(capacity: nat, count: nat): nat
    requires capacity > 0
    decreases if count > capacity then count - capacity else 0
  {
    if count <= capacity then capacity else Doubled(2 * capacity, count)
  }

  lemma {:induction false} DoubledLaws(capacity: nat, count: nat)
    requires capacity > 0
    ensures count <= Doubled(capacity, count) && capacity <= Doubled(capacity, count)
    ensures Doubled(capacity, count) == capacity || Doubled(capacity, count) < 2 * count
    decreases if count > capacity then count - capacity else 0
  {
    if count > capacity { DoubledLaws(2 * capacity, count); }
  }

  lemma {:induction false} DoubledNext(capacity: nat, count: nat)
    requires capacity > 0
    ensures var d := Doubled(capacity, count);
            Doubled(capacity, count + 1) == if count < d then d else 2 * d
    decreases if count > capacity then count - capacity else 0
  {
    if count > capacity { DoubledNext(2 * capacity, count); }
  }

  lemma {:induction false} HonestTakes(g: Gauge, k: nat)
    requires Honest(g)
    ensures var d := Doubled(g.numTokens, g.toknext + k);
            TakeAll(g, k) == Some(Gauge(g.toknext + k, d, if d == g.numTokens then g.length else d))
    decreases k
  {
    hide Doubled;
    DoubledLaws(g.numTokens, g.toknext);
    if k == 0 {
      StillFits(g.numTokens, g.toknext);
    } else {
      HonestTakes(g, k - 1);
      DoubledNext(g.numTokens, g.toknext + k - 1);
      DoubledLaws(g.numTokens, g.toknext + k - 1);
    }
  }

  lemma StillFits(capacity: nat, count: nat)
    requires 0 < capacity && count <= capacity
    ensures Doubled(capacity, count) == capacity
  {
  }
}
