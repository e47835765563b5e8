/** The width field of dq_state: 13 bits above bit 41 of a 64-bit word
    (queue_internal.h, inline_internal.h). */
module QueueWidth {

  const INTERVAL: nat := 0x0000020000000000
  const WIDTH_FULL: nat := 0x1000
  const FIELD: nat := 0x2000
  const WORD: nat := 0x1_0000000000000000

  /** The field, with the queue-full bit as its highest bit. */
  function WidthBits(state: nat): nat {
    (state / INTERVAL) % FIELD
  }

  function AvailableWidth(state: nat): nat {
    if WidthBits(state) < WIDTH_FULL then WIDTH_FULL - WidthBits(state) else 0
  }

  /** Everything in the word except the width field. */
  function OtherBits(state: nat): (nat, nat) {
    (state % INTERVAL, state / (INTERVAL * FIELD))
  }

  lemma Split(state: nat)
    ensures state == OtherBits(state).0 + WidthBits(state) * INTERVAL + OtherBits(state).1 * (INTERVAL * FIELD)
  {
    var high := state / INTERVAL;
    assert state == state % INTERVAL + high * INTERVAL;
    assert high == high % FIELD + high / FIELD * FIELD;
    assert high / FIELD == state / (INTERVAL * FIELD);
  }

  lemma Join(low: nat, bits: nat, high: nat)
    requires low < INTERVAL && bits < FIELD
    ensures var s := low + bits * INTERVAL + high * (INTERVAL * FIELD);
      OtherBits(s) == (low, high) && WidthBits(s) == bits
  {
    var s := low + bits * INTERVAL + high * (INTERVAL * FIELD);
    assert s == low + (bits + high * FIELD) * INTERVAL;
    assert s / INTERVAL == bits + high * FIELD;
  }

  /** Adding w intervals moves the field alone, as long as the field has room. */
  lemma AddWidth(state: nat, w: nat)
    requires state < WORD && WidthBits(state) + w < FIELD
    ensures state + w * INTERVAL < WORD
    ensures WidthBits(state + w * INTERVAL) == WidthBits(state) + w
    ensures OtherBits(state + w * INTERVAL) == OtherBits(state)
  {
    hide WidthBits, OtherBits;
    Split(state);
    BitsInRange(state);
    Join(OtherBits(state).0, WidthBits(state) + w, OtherBits(state).1);
  }

  lemma BitsInRange(state: nat)
    ensures OtherBits(state).0 < INTERVAL && WidthBits(state) < FIELD
    ensures state < WORD ==> OtherBits(state).1 < WORD / (INTERVAL * FIELD)
  {
  }

  /** The 64-bit word in which `share` intervals were added to `theirs`. */
  function With(theirs: nat, share: nat): nat {
    (theirs + share * INTERVAL) % WORD
  }

  /** Adding to the share, or taking from it, is addition or subtraction on the word, in
      64-bit arithmetic. */
  lemma ShareChanges(theirs: nat, share: nat, w: nat)
    ensures With(theirs, share + w) == (With(theirs, share) + w * INTERVAL) % WORD
    ensures w <= share ==> With(theirs, share - w) == (With(theirs, share) - w * INTERVAL) % WORD
  {
    WordPlus(theirs + share * INTERVAL, w * INTERVAL);
    WordPlus(theirs + share * INTERVAL, -(w * INTERVAL));
  }

  lemma WithInWord(theirs: nat, share: nat)
    ensures With(theirs, share) < WORD
  {
  }

  lemma WordOfWord(x: nat)
    requires x < WORD
    ensures x % WORD == x
  {
  }

  /** 64-bit arithmetic may take the remainder at every step or once. */
  lemma WordPlus(x: nat, y: int)
    ensures (x % WORD + y) % WORD == (x + y) % WORD
  {
    var q := x / WORD;
    assert x % WORD + y == x + y - q * WORD;
  }

  /** As long as the field has room for it, the share is the width that the word has more
      than the others alone give it, and nothing else in the word. */
  lemma ShareIsWidth(theirs: nat, share: nat)
    requires WidthBits(theirs % WORD) + share < FIELD
    ensures WidthBits(With(theirs, share)) == WidthBits(theirs % WORD) + share
    ensures OtherBits(With(theirs, share)) == OtherBits(theirs % WORD)
  {
    hide WidthBits, OtherBits;
    AddWidth(theirs % WORD, share);
    ShareChanges(theirs, 0, share);
  }
}
