/** Bounded-reordering replay protection (origin-channel): a sliding bitmap over the last
    `window` sequence numbers, against the plain set of the numbers accepted so far. */
module ReplayWindow {
  import opened BitWords

  /** The specification: nothing is ever forgotten. `highest` is 0 until a number is accepted. */
  datatype SeenSet = SeenSet(window: nat, accepted: set<nat>, highest: nat) {

    ghost predicate Valid() {
      && window >= 1
      && (accepted == {} ==> highest == 0)
      && (accepted != {} ==> highest in accepted)
      && (forall x <- accepted :: x <= highest)
    }

    function Floor(): nat {
      if highest + 1 < window then 0 else highest + 1 - window
    }

    /** The first number is always acceptable; later ones when new and not below the floor. */
    predicate Accepts(n: nat) {
      accepted == {} || (Floor() <= n && n !in accepted)
    }

    function Accept(n: nat): SeenSet {
      if Accepts(n)
      then SeenSet(window, accepted + {n}, if n > highest then n else highest)
      else this
    }
  }

  function Empty(window: nat): SeenSet {
    SeenSet(window, {}, 0)
  }

  // ---------------------------------------------------------------- whole runs of the specification

  ghost function After(window: nat, ns: seq<nat>): SeenSet {
    if ns == [] then Empty(window) else After(window, ns[..|ns| - 1]).Accept(ns[|ns| - 1])
  }

  /** The answer to the `i`-th call of a run. */
  ghost predicate Answer(window: nat, ns: seq<nat>, i: nat)
    requires i < |ns|
  {
    After(window, ns[..i]).Accepts(ns[i])
  }

  ghost predicate WasAccepted(window: nat, ns: seq<nat>, x: nat) {
    exists j :: 0 <= j < |ns| && ns[j] == x && Answer(window, ns, j)
  }

  lemma AnswerOfPrefix(window: nat, ns: seq<nat>, i: nat, j: nat)
    requires j < i <= |ns|
    ensures Answer(window, ns[..i], j) == Answer(window, ns, j)
  {
    assert ns[..i][..j] == ns[..j];
  }

  lemma WasAcceptedStep(window: nat, ns: seq<nat>, x: nat)
    requires ns != []
    ensures WasAccepted(window, ns, x)
       <==> WasAccepted(window, ns[..|ns| - 1], x) || (ns[|ns| - 1] == x && Answer(window, ns, |ns| - 1))
  {
    hide Answer;
    var k := |ns| - 1;
    var pre := ns[..k];
    if j :| 0 <= j < |ns| && ns[j] == x && Answer(window, ns, j) {
      if j < k {
        AnswerOfPrefix(window, ns, k, j);
        assert pre[j] == x && Answer(window, pre, j);
      }
    }
    if j :| 0 <= j < k && pre[j] == x && Answer(window, pre, j) {
      AnswerOfPrefix(window, ns, k, j);
      assert ns[j] == x && Answer(window, ns, j);
    }
  }

  /** The state after a run, told by its answers alone. */
  lemma {:induction false} AfterIsAnswers(window: nat, ns: seq<nat>)
    requires window >= 1
    ensures After(window, ns).Valid() && After(window, ns).window == window
    ensures forall x :: x in After(window, ns).accepted <==> WasAccepted(window, ns, x)
  {
    if ns != [] {
      AfterIsAnswers(window, ns[..|ns| - 1]);
      hide WasAccepted;
      forall x ensures x in After(window, ns).accepted <==> WasAccepted(window, ns, x) {
        WasAcceptedStep(window, ns, x);
      }
    }
  }

  /** After any run, a number is refused exactly when it was accepted before or lies a whole window
      below a number that was. */
  lemma RefusedIff(window: nat, ns: seq<nat>, n: nat)
    requires window >= 1
    ensures !After(window, ns).Accepts(n) <==>
              exists j :: 0 <= j < |ns| && Answer(window, ns, j) && (ns[j] == n || n + window <= ns[j])
  {
    var s := After(window, ns);
    AfterIsAnswers(window, ns);
    if !s.Accepts(n) {
      var x := if n in s.accepted then n else s.highest;
      assert WasAccepted(window, ns, x);
    }
    if j :| 0 <= j < |ns| && Answer(window, ns, j) && (ns[j] == n || n + window <= ns[j]) {
      assert WasAccepted(window, ns, ns[j]);
    }
  }

  /** No number is accepted twice, and a number is turned down only for being a repeat or for
      lying below the window that ends at the highest accepted number. */
  lemma ReplaySafety(window: nat, ns: seq<nat>, i: nat)
    requires window >= 1 && i < |ns|
    ensures Answer(window, ns, i) ==> forall j :: 0 <= j < i && ns[j] == ns[i] ==> !Answer(window, ns, j)
    ensures !Answer(window, ns, i) ==>
              || (exists j :: 0 <= j < i && ns[j] == ns[i] && Answer(window, ns, j))
              || (exists j :: 0 <= j < i && Answer(window, ns, j) && ns[i] + window <= ns[j])
  {
    var pre := ns[..i];
    var s := After(window, pre);
    AfterIsAnswers(window, pre);
    forall j | 0 <= j < i ensures Answer(window, ns, j) == Answer(window, pre, j) {
      AnswerOfPrefix(window, ns, i, j);
    }
    assert forall j :: 0 <= j < i && pre[j] == ns[i] && Answer(window, pre, j) ==> WasAccepted(window, pre, ns[i]);
    if s.Accepts(ns[i]) {
    } else if ns[i] in s.accepted {
      var j :| 0 <= j < i && pre[j] == ns[i] && Answer(window, pre, j);
      assert ns[j] == ns[i] && Answer(window, ns, j);
    } else {
      assert WasAccepted(window, pre, s.highest);
      var j :| 0 <= j < i && pre[j] == s.highest && Answer(window, pre, j);
      assert Answer(window, ns, j) && ns[i] + window <= ns[j];
    }
  }

  // ---------------------------------------------------------------- the bitmap

  /** Bit `i` stands for sequence number `floor + i`. */
  class Window {
    var highest: u64
    var bitmap: array<u64>
    const windowSize: nat
    var initialized: bool
    ghost var seen: SeenSet

    ghost predicate Valid()
      reads this, bitmap
    {
      && bitmap.Length == (windowSize + WORD - 1) / WORD
      && seen.window == windowSize
      && seen.Valid()
      && (initialized <==> seen.accepted != {})
      && highest == seen.highest
      && Mirrors(bitmap[..], seen)
    }

    constructor (windowSize: nat)
      requires windowSize >= 1
      ensures Valid() && fresh(bitmap)
      ensures seen == Empty(windowSize)
    {
      this.windowSize := windowSize;
      highest, initialized := 0, false;
      bitmap := new u64[(windowSize + WORD - 1) / WORD](_ => 0);
      seen := Empty(windowSize);
      new;
      forall i: nat ensures !BitAt(bitmap[..], i) {
        ShiftOut(0, 0, i % WORD);
      }
    }

    /** Accepts exactly what the set of accepted numbers allows; a refusal changes nothing. */
    method Accept(n: u64) returns (ok: bool)
      requires Valid()
      modifies this, bitmap
      ensures Valid() && bitmap == old(bitmap)
      ensures ok == old(seen).Accepts(n)
      ensures seen == old(seen).Accept(n)
      ensures !ok ==> highest == old(highest) && initialized == old(initialized) && bitmap[..] == old(bitmap[..])
    {
      if !initialized {
        AcceptFirst(n);
        return true;
      }
      var floor := SaturatingSub(highest, windowSize - 1);
      if n < floor {
        return false;
      }
      if n > highest {
        MakeRoom(n);
      }
      var offset := n - SaturatingSub(highest, windowSize - 1);
      var dup := GetBit(offset);
      if offset >= windowSize || dup {
        return false;
      }
      ghost var before, slid := bitmap[..], seen.(highest := highest);
      SetBit(offset);
      MarkKeepsMirror(before, bitmap[..], slid, n);
      seen := seen.Accept(n);
      return true;
    }

    method AcceptFirst(n: u64)
      requires Valid() && !initialized
      modifies this, bitmap
      ensures Valid() && bitmap == old(bitmap)
      ensures seen == old(seen).Accept(n)
    {
      initialized := true;
      highest := n;
      var floor := SaturatingSub(highest, windowSize - 1);
      var offset := n - floor;
      SetBit(offset);
      MarkKeepsMirror(old(bitmap[..]), bitmap[..], seen.(highest := n), n);
      seen := seen.Accept(n);
    }

    /** The floor moves less than the highest number does while it is still saturated at 0. */
    method MakeRoom(n: u64)
      requires Valid() && initialized && n > highest
      modifies this`highest, bitmap
      ensures highest == n
      ensures Mirrors(bitmap[..], seen.(highest := n))
    {
      var oldFloor := SaturatingSub(highest, windowSize - 1);
      var newFloor := SaturatingSub(n, windowSize - 1);
      var floorShift := newFloor - oldFloor;
      if floorShift > 0 {
        Advance(floorShift);
      }
      highest := n;
      SlideKeepsMirror(old(bitmap[..]), bitmap[..], seen, seen.(highest := n), floorShift);
    }

    /** Slides the bitmap down by `shift`, in place. */
    method Advance(shift: nat)
      requires bitmap.Length == (windowSize + WORD - 1) / WORD
      requires forall i: nat :: windowSize <= i ==> !BitAt(bitmap[..], i)
      modifies bitmap
      ensures forall i: nat :: BitAt(bitmap[..], i) == BitAt(old(bitmap[..]), i + shift)
    {
      if shift >= windowSize {
        Clear();
        return;
      }
      var wordShift := shift / WORD;
      var bitShift := shift % WORD;
      ghost var start := bitmap[..];
      if wordShift > 0 {
        ShiftWords(wordShift);
      }
      assert bitmap[..] == WordShifted(start, wordShift);
      if bitShift > 0 {
        ShiftBits(bitShift);
      }
      forall i: nat ensures BitAt(bitmap[..], i) == BitAt(start, i + shift) {
        if i < WORD * |start| { ShiftedBit(start, shift, i); }
      }
    }

    method Clear()
      modifies bitmap
      ensures forall i: nat :: !BitAt(bitmap[..], i)
    {
      for i := 0 to bitmap.Length
        invariant forall j :: 0 <= j < i ==> bitmap[j] == 0
      {
        bitmap[i] := 0;
      }
      forall i: nat ensures !BitAt(bitmap[..], i) {
        ShiftOut(0, 0, i % WORD);
      }
    }

    method ShiftWords(n: nat)
      requires n > 0
      modifies bitmap
      ensures bitmap[..] == WordShifted(old(bitmap[..]), n)
    {
      ghost var start := bitmap[..];
      for i := 0 to bitmap.Length
        invariant forall j :: 0 <= j < i ==> bitmap[j] == if j + n < |start| then start[j + n] else 0
        invariant forall j :: i <= j < bitmap.Length ==> bitmap[j] == start[j]
      {
        bitmap[i] := if i + n < bitmap.Length then bitmap[i + n] else 0;
      }
    }

    method ShiftBits(s: nat)
      requires 0 < s < WORD
      modifies bitmap
      ensures bitmap[..] == BitShifted(old(bitmap[..]), s)
    {
      ghost var start := bitmap[..];
      for i := 0 to bitmap.Length
        invariant forall j :: 0 <= j < i ==> bitmap[j] == Funnel(start, j, s)
        invariant forall j :: i <= j < bitmap.Length ==> bitmap[j] == start[j]
      {
        bitmap[i] := Shr(bitmap[i], s);
        if i + 1 < bitmap.Length {
          bitmap[i] := Or64(bitmap[i], Shl(bitmap[i + 1], WORD - s));
        }
      }
    }

    method GetBit(offset: nat) returns (b: bool)
      ensures b == BitAt(bitmap[..], offset)
    {
      var word := offset / WORD;
      var bit := offset % WORD;
      if word >= bitmap.Length {
        return false;
      }
      return Shr(bitmap[word], bit) % 2 == 1;
    }

    method SetBit(offset: nat)
      modifies bitmap
      ensures forall i: nat :: BitAt(bitmap[..], i)
                == (BitAt(old(bitmap[..]), i) || (i == offset && offset / WORD < bitmap.Length))
    {
      var word := offset / WORD;
      var bit := offset % WORD;
      if word < bitmap.Length {
        ghost var was := bitmap[word];
        bitmap[word] := Or64(bitmap[word], Shl(1, bit));
        forall i: nat ensures BitAt(bitmap[..], i) == (BitAt(old(bitmap[..]), i) || i == offset) {
          if i / WORD == word {
            OrBit(was, Shl(1, bit), i % WORD);
            SingleBit(bit, i % WORD);
          }
        }
      }
    }
  }

  function SaturatingSub(a: nat, b: nat): nat {
    if a < b then 0 else a - b
  }

  /** The bitmap shows, above the floor, exactly the accepted numbers. */
  ghost predicate Mirrors(words: seq<u64>, s: SeenSet) {
    forall i: nat :: BitAt(words, i) <==> s.Floor() + i in s.accepted
  }

  lemma MarkKeepsMirror(words: seq<u64>, words': seq<u64>, s: SeenSet, n: nat)
    requires Mirrors(words, s) && s.Floor() <= n
    requires forall i: nat :: BitAt(words', i) == (BitAt(words, i) || i == n - s.Floor())
    ensures Mirrors(words', s.(accepted := s.accepted + {n}))
  {}

  lemma SlideKeepsMirror(words: seq<u64>, words': seq<u64>, s: SeenSet, s': SeenSet, shift: nat)
    requires Mirrors(words, s)
    requires s'.accepted == s.accepted && s'.Floor() == s.Floor() + shift
    requires forall i: nat :: BitAt(words', i) == BitAt(words, i + shift)
    ensures Mirrors(words', s')
  {
    forall i: nat ensures BitAt(words', i) <==> s'.Floor() + i in s'.accepted {
      assert BitAt(words, i + shift) <==> s.Floor() + (i + shift) in s.accepted;
    }
  }
}
