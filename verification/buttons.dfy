/** The button history register: the upper nibble holds the previous 100 ms
    sample of the four keys, the lower nibble the current one, a set bit
    meaning "pressed". */
module Buttons {

  const Up: bv8 := 0x88
  const Pwr: bv8 := 0x44
  const Down: bv8 := 0x22
  const Set: bv8 := 0x11

  /** The keys sit on the upper nibble of the input port, active low. */
  const PortKeys: bv8 := 0xF0

  predicate IsKey(k: bv8)
  {
    k == Up || k == Pwr || k == Down || k == Set
  }

  /** The key is down in the current sample. */
  predicate DownNow(b: bv8, k: bv8)
  {
    b & k & 0x0F != 0
  }

  /** The key was down in the previous sample. */
  predicate DownBefore(b: bv8, k: bv8)
  {
    b & k & 0xF0 != 0
  }

  /** Shift the current sample into the history and add a fresh one read
      from the port (a low pin is a pressed key). */
  function ReadButtons(history: bv8, port: bv8): (b: bv8)
    ensures forall k :: IsKey(k) ==> (DownBefore(b, k) <==> DownNow(history, k))
    ensures forall k :: IsKey(k) ==> (DownNow(b, k) <==> port & k & 0xF0 == 0)
  {
    var sample := (((port & PortKeys) >> 4) ^ 0x0F) & 0x0F;
    (history << 4) | sample
  }

  predicate Idle(b: bv8, k: bv8) { b & k == 0 }
  predicate Pressed(b: bv8, k: bv8) { b & k == k & 0x0F }
  predicate Held(b: bv8, k: bv8) { b & k == k }
  predicate Released(b: bv8, k: bv8) { b & k == k & 0xF0 }
  predicate HeldOrReleased(b: bv8, k: bv8) { b & k & 0xF0 != 0 }

  /** The four keys occupy disjoint bits, one in each nibble. */
  lemma KeysDisjoint()
    ensures Up & Pwr == 0 && Up & Down == 0 && Up & Set == 0
    ensures Pwr & Down == 0 && Pwr & Set == 0 && Down & Set == 0
    ensures forall k :: IsKey(k) ==> k & 0xF0 == (k & 0x0F) << 4
    ensures Up | Pwr | Down | Set == 0xFF
  {
  }

  /** For every key exactly one of idle, pressed (just went down), held
      (down in both samples) and released (just went up) holds; "held or
      released" means it was down in the previous sample. */
  lemma KeyStates(b: bv8, k: bv8)
    requires IsKey(k)
    ensures Idle(b, k) <==> !DownNow(b, k) && !DownBefore(b, k)
    ensures Pressed(b, k) <==> DownNow(b, k) && !DownBefore(b, k)
    ensures Held(b, k) <==> DownNow(b, k) && DownBefore(b, k)
    ensures Released(b, k) <==> !DownNow(b, k) && DownBefore(b, k)
    ensures HeldOrReleased(b, k) <==> DownBefore(b, k)
  {
  }

  lemma ExactlyOneState(b: bv8, k: bv8)
    requires IsKey(k)
    ensures Idle(b, k) || Pressed(b, k) || Held(b, k) || Released(b, k)
    ensures !(Idle(b, k) && Pressed(b, k)) && !(Idle(b, k) && Held(b, k))
    ensures !(Idle(b, k) && Released(b, k)) && !(Pressed(b, k) && Held(b, k))
    ensures !(Pressed(b, k) && Released(b, k)) && !(Held(b, k) && Released(b, k))
  {
    KeyStates(b, k);
  }

  /** A key held down across two reads is reported held; one let go after a
      press is reported released. */
  lemma PressSequence(history: bv8, p1: bv8, p2: bv8, k: bv8)
    requires IsKey(k)
    requires p1 & k & 0xF0 == 0
    ensures var b1 := ReadButtons(history, p1);
      (p2 & k & 0xF0 == 0 ==> Held(ReadButtons(b1, p2), k))
      && (p2 & k & 0xF0 != 0 ==> Released(ReadButtons(b1, p2), k))
  {
    var b1 := ReadButtons(history, p1);
    KeyStates(ReadButtons(b1, p2), k);
  }
}
