/** The finger-state extractor and the easter-egg predicate of the gesture
    recognizer hook: a five-digit open/closed vector read off the
    hand-landmark layout of the hand-landmark model, and the one pattern
    (only the middle finger extended) that the demo reacts to. */
module FingerStates {

  /** One landmark of a hand, in normalised frame coordinates (y grows downwards). */
  datatype Landmark = Landmark(x: real, y: real)

  /** The landmarks of one detected hand, indexed as the model numbers them (21 points). */
  type Hand = seq<Landmark>

  /** 0 = flexed (closed), 1 = extended. */
  type Bit = b: int | 0 <= b <= 1

  datatype FingerState = FingerState(thumb: Bit, index: Bit, middle: Bit, ring: Bit, pinky: Bit)

  /** What the extractor gives for the landmark sets of one frame: no hand,
      a finger vector, or the exception raised when the first hand lacks a
      landmark the rules read (JavaScript reads a field of `undefined`). */
  datatype Extraction = NoHand | Extracted(fingers: FingerState) | LandmarkMissing

  /** Landmark indices of the five finger tips, thumb first. */
  const FingerTips: seq<nat> := [4, 8, 12, 16, 20]
  /** Landmark indices of the joint each tip is compared with (thumb IP, then the PIP joints). */
  const FingerPips: seq<nat> := [3, 6, 10, 14, 18]
  /** The highest landmark index the rules read, plus one. */
  const LandmarksPerHand: nat := 21

  function BitOf(b: bool): Bit
  {
    if b then 1 else 0
  }

  /** The extraction rules, one digit at a time: the thumb is extended when its
      tip lies to the right of its joint, every other finger when its tip lies
      above its middle joint. Handedness plays no part. */
  function FingersOf(hand: Hand): FingerState
    requires |hand| >= LandmarksPerHand
  {
    FingerState(
      thumb := BitOf(hand[4].x > hand[3].x),
      index := BitOf(hand[8].y < hand[6].y),
      middle := BitOf(hand[12].y < hand[10].y),
      ring := BitOf(hand[16].y < hand[14].y),
      pinky := BitOf(hand[20].y < hand[18].y))
  }

  /** Specification of the extractor over the landmark sets of a frame: only the first hand is read. */
  function Extract(landmarks: seq<Hand>): Extraction
  {
    if |landmarks| == 0 then NoHand
    else if |landmarks[0]| < LandmarksPerHand then LandmarkMissing
    else Extracted(FingersOf(landmarks[0]))
  }

  /** Digit `d` of the vector, in the order thumb, index, middle, ring, pinky. */
  function Digit(f: FingerState, d: nat): Bit
    requires d < 5
  {
    if d == 0 then f.thumb
    else if d == 1 then f.index
    else if d == 2 then f.middle
    else if d == 3 then f.ring
    else f.pinky
  }

  /** `f` with digit `d` replaced by `b`. */
  function WithDigit(f: FingerState, d: nat, b: Bit): (r: FingerState)
    requires d < 5
    ensures Digit(r, d) == b
    ensures forall e :: 0 <= e < 5 && e != d ==> Digit(r, e) == Digit(f, e)
  {
    if d == 0 then f.(thumb := b)
    else if d == 1 then f.(index := b)
    else if d == 2 then f.(middle := b)
    else if d == 3 then f.(ring := b)
    else f.(pinky := b)
  }

  /** `detectFingerStates`: start from all-closed, set the thumb by the
      horizontal rule, then walk the tip and joint tables for the other four
      digits. */
  method DetectFingerStates(landmarks: seq<Hand>) returns (r: Extraction)
    ensures r == Extract(landmarks)
  {
    if |landmarks| == 0 {
      return NoHand;
    }
    var hand := landmarks[0];
    var fingers := FingerState(0, 0, 0, 0, 0);
    if |hand| <= 4 {
      return LandmarkMissing;
    }
    if hand[4].x > hand[3].x {
      fingers := WithDigit(fingers, 0, 1);
    }
    for i := 1 to 5
      invariant Digit(fingers, 0) == BitOf(hand[4].x > hand[3].x)
      invariant forall d :: 1 <= d < i ==>
        FingerTips[d] < |hand| && Digit(fingers, d) == BitOf(hand[FingerTips[d]].y < hand[FingerPips[d]].y)
      invariant forall d :: i <= d < 5 ==> Digit(fingers, d) == 0
    {
      if FingerTips[i] >= |hand| {
        return LandmarkMissing;
      }
      if hand[FingerTips[i]].y < hand[FingerPips[i]].y {
        fingers := WithDigit(fingers, i, 1);
      }
    }
    assert Digit(fingers, 4) == BitOf(hand[20].y < hand[18].y);
    assert Digit(fingers, 1) == BitOf(hand[8].y < hand[6].y);
    assert Digit(fingers, 2) == BitOf(hand[12].y < hand[10].y);
    assert Digit(fingers, 3) == BitOf(hand[16].y < hand[14].y);
    return Extracted(fingers);
  }

  /** The rules digit by digit, each independent of the others and of handedness. */
  lemma ExtractionRules(landmarks: seq<Hand>)
    ensures Extract(landmarks) == NoHand <==> |landmarks| == 0
    ensures Extract(landmarks).Extracted? <==> |landmarks| > 0 && |landmarks[0]| >= LandmarksPerHand
    ensures Extract(landmarks).Extracted? ==>
      var hand, f := landmarks[0], Extract(landmarks).fingers;
      && (f.thumb == 1 <==> hand[4].x > hand[3].x)
      && (f.index == 1 <==> hand[8].y < hand[6].y)
      && (f.middle == 1 <==> hand[12].y < hand[10].y)
      && (f.ring == 1 <==> hand[16].y < hand[14].y)
      && (f.pinky == 1 <==> hand[20].y < hand[18].y)
  {
  }

  /** A digit depends on its own tip and joint only: two hands that agree on
      those two landmarks agree on the digit, whatever else differs. */
  lemma DigitReadsOnlyItsLandmarks(h1: Hand, h2: Hand, d: nat)
    requires |h1| >= LandmarksPerHand && |h2| >= LandmarksPerHand && d < 5
    requires h1[FingerTips[d]] == h2[FingerTips[d]] && h1[FingerPips[d]] == h2[FingerPips[d]]
    ensures Digit(FingersOf(h1), d) == Digit(FingersOf(h2), d)
  {
  }

  /** Only the first detected hand is read: later hands never change the result. */
  lemma OnlyFirstHandRead(first: Hand, others1: seq<Hand>, others2: seq<Hand>)
    ensures Extract([first] + others1) == Extract([first] + others2)
  {
    assert ([first] + others1)[0] == first == ([first] + others2)[0];
  }

  /** A fully open hand: every tip above its joint and the thumb tip to the right of its joint. */
  lemma OpenHandIsAllOnes(hand: Hand)
    requires |hand| >= LandmarksPerHand
    requires hand[4].x > hand[3].x
    requires forall d :: 1 <= d < 5 ==> hand[FingerTips[d]].y < hand[FingerPips[d]].y
    ensures FingersOf(hand) == FingerState(1, 1, 1, 1, 1)
  {
    assert hand[FingerTips[1]].y < hand[FingerPips[1]].y;
    assert hand[FingerTips[2]].y < hand[FingerPips[2]].y;
    assert hand[FingerTips[3]].y < hand[FingerPips[3]].y;
    assert hand[FingerTips[4]].y < hand[FingerPips[4]].y;
  }

  /** The pattern the easter egg reacts to: only the middle finger extended. */
  const EasterEggPattern: FingerState := FingerState(0, 0, 1, 0, 0)

  /** `checkEasterEgg`. */
  predicate IsEasterEgg(f: FingerState)
  {
    f.thumb == 0 && f.index == 0 && f.middle == 1 && f.ring == 0 && f.pinky == 0
  }

  /** The vector read as a five-bit number, thumb as the most significant bit
      (the order in which the vector is written, [thumb, index, middle, ring, pinky]). */
  function Encode(f: FingerState): (k: nat)
    ensures k < 32
  {
    16 * f.thumb + 8 * f.index + 4 * f.middle + 2 * f.ring + f.pinky
  }

  /** The vector whose five-bit reading is `k`. */
  function Decode(k: nat): FingerState
    requires k < 32
  {
    FingerState(k / 16, (k / 8) % 2, (k / 4) % 2, (k / 2) % 2, k % 2)
  }

  lemma DecodeEncode(f: FingerState)
    ensures Decode(Encode(f)) == f
  {
  }

  /** Every five-bit number is a reading: checked number by number. */
  lemma EncodeDecode(k: nat)
    requires k < 32
    ensures Encode(Decode(k)) == k
  {
    if k == 0 {
    } else if k == 1 {
    } else if k == 2 {
    } else if k == 3 {
    } else if k == 4 {
    } else if k == 5 {
    } else if k == 6 {
    } else if k == 7 {
    } else if k == 8 {
    } else if k == 9 {
    } else if k == 10 {
    } else if k == 11 {
    } else if k == 12 {
    } else if k == 13 {
    } else if k == 14 {
    } else if k == 15 {
    } else if k == 16 {
    } else if k == 17 {
    } else if k == 18 {
    } else if k == 19 {
    } else if k == 20 {
    } else if k == 21 {
    } else if k == 22 {
    } else if k == 23 {
    } else if k == 24 {
    } else if k == 25 {
    } else if k == 26 {
    } else if k == 27 {
    } else if k == 28 {
    } else if k == 29 {
    } else if k == 30 {
    } else {
      assert k == 31;
    }
  }

  /** All 32 finger vectors, each exactly once: every vector sits at its own
      five-bit reading, and the entry at k reads as k. */
  function AllFingerStates(): (all: seq<FingerState>)
    ensures |all| == 32
    ensures forall f: FingerState :: all[Encode(f)] == f
    ensures forall k :: 0 <= k < 32 ==> Encode(all[k]) == k
  {
    var all := seq(32, k requires 0 <= k < 32 => Decode(k));
    assert forall f: FingerState :: all[Encode(f)] == f by {
      forall f: FingerState ensures all[Encode(f)] == f {
        DecodeEncode(f);
      }
    }
    assert forall k :: 0 <= k < 32 ==> Encode(all[k]) == k by {
      forall k | 0 <= k < 32 ensures Encode(all[k]) == k {
        EncodeDecode(k);
      }
    }
    all
  }

  /** The predicate holds for exactly one of the 32 vectors (reading 00100, i.e. 4)
      and fails for the other 31. */
  lemma EasterEggExactlyOneOf32()
    ensures forall k :: 0 <= k < 32 ==> (IsEasterEgg(AllFingerStates()[k]) <==> k == 4)
    ensures forall f: FingerState :: IsEasterEgg(f) <==> f == EasterEggPattern
  {
    var all := AllFingerStates();
    assert Encode(EasterEggPattern) == 4;
    forall k | 0 <= k < 32
      ensures IsEasterEgg(all[k]) <==> k == 4
    {
      assert Encode(all[k]) == k;
    }
  }

  /** The easter egg in terms of the landmarks: thumb tip not right of its
      joint, middle tip above its joint, and the other three tips not above theirs. */
  lemma EasterEggFromLandmarks(hand: Hand)
    requires |hand| >= LandmarksPerHand
    ensures IsEasterEgg(FingersOf(hand)) <==>
      && hand[4].x <= hand[3].x
      && hand[8].y >= hand[6].y
      && hand[12].y < hand[10].y
      && hand[16].y >= hand[14].y
      && hand[20].y >= hand[18].y
  {
  }
}
