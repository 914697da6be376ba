/** Typing a text as key transitions on a simulated seat, with cleanup when an answer is lost. */
module Typing {
  import opened Protocol

  datatype Stroke = Stroke(keycode: nat, level: nat, shift: bool)

  /** The keyboard artifact: the characters the layout can type and the keys it names. */
  datatype Artifact = Artifact(runes: map<char, Stroke>, named: map<string, Stroke>)

  const KEYCODE_MIN := 1
  const KEYCODE_MAX := 255
  const SHIFT_NAME := "Shift_L"

  predicate ValidStroke(s: Stroke) {
    KEYCODE_MIN <= s.keycode <= KEYCODE_MAX && s.level <= 1 && s.shift == (s.level == 1)
  }

  /** What an artifact must be to be decoded at all. */
  predicate ValidArtifact(a: Artifact) {
    && a.runes != map[] && a.named != map[]
    && (forall c :: c in a.runes ==> ValidStroke(a.runes[c]))
    && (forall n :: n in a.named ==> ValidStroke(a.named[n]))
  }

  /** One transition as it was sent: a press or a release of a key, and whether the seat got it. */
  datatype Transition = Press(key: nat) | Release(key: nat)
  datatype Sent = Sent(transition: Transition, delivered: bool)

  /** How a call ended: whether the transition arrived, and whether the caller was told so. */
  datatype Reply = Reply(delivered: bool, ok: bool)

  datatype Result = Completed(strokes: nat) | EmptyText | Untypable(offset: nat) | NoShift | CallFailed

  // ---------------------------------------------------------------- the seat

  /** The keys a seat holds after what it was sent, if it held none before. */
  function Held(log: seq<Sent>): set<nat> {
    if log == [] then {}
    else
      var before, last := Held(log[..|log| - 1]), log[|log| - 1];
      if !last.delivered then before
      else
        match last.transition
        case Press(key) => before + {key}
        case Release(key) => before - {key}
  }

  /** A key press that types something, and whether shift was held for it. */
  datatype Typing = Typing(key: nat, shifted: bool)

  /** What the seat types: every delivered press of a key other than shift, with shift as it is held then. */
  function Seen(log: seq<Sent>, shift: nat): seq<Typing> {
    if log == [] then []
    else
      var before, last := log[..|log| - 1], log[|log| - 1];
      Seen(before, shift) +
      (if last.delivered && last.transition.Press? && last.transition.key != shift
       then [Typing(last.transition.key, shift in Held(before))] else [])
  }

  // ---------------------------------------------------------------- what should be sent

  function StrokeKeys(s: Stroke, shift: nat): seq<Transition> {
    if s.shift then [Press(shift), Press(s.keycode), Release(s.keycode), Release(shift)]
    else [Press(s.keycode), Release(s.keycode)]
  }

  function TextKeys(strokes: seq<Stroke>, shift: nat): seq<Transition> {
    if strokes == [] then []
    else TextKeys(strokes[..|strokes| - 1], shift) + StrokeKeys(strokes[|strokes| - 1], shift)
  }

  function Wanted(strokes: seq<Stroke>): seq<Typing> {
    seq(|strokes|, i requires 0 <= i < |strokes| => Typing(strokes[i].keycode, strokes[i].shift))
  }

  function Delivered(keys: seq<Transition>): seq<Sent> {
    seq(|keys|, i requires 0 <= i < |keys| => Sent(keys[i], true))
  }

  function Transitions(log: seq<Sent>): seq<Transition> {
    seq(|log|, i requires 0 <= i < |log| => log[i].transition)
  }

  /** A press at index i is followed by a release of the same key. */
  ghost predicate Released(keys: seq<Transition>, i: nat)
    requires i < |keys|
  {
    keys[i].Press? ==> exists j :: i < j < |keys| && keys[j] == Release(keys[i].key)
  }

  ghost predicate Balanced(keys: seq<Transition>) {
    forall i: nat :: i < |keys| ==> Released(keys, i)
  }

  lemma BalancedAppend(a: seq<Transition>, b: seq<Transition>)
    requires Balanced(a) && Balanced(b)
    ensures Balanced(a + b)
  {
    forall i: nat | i < |a + b| ensures Released(a + b, i) {
      if i < |a| {
        assert Released(a, i);
        if a[i].Press? {
          var j :| i < j < |a| && a[j] == Release(a[i].key);
          assert (a + b)[j] == a[j];
        }
      } else {
        assert Released(b, i - |a|);
        if b[i - |a|].Press? {
          var j :| i - |a| < j < |b| && b[j] == Release(b[i - |a|].key);
          assert (a + b)[|a| + j] == b[j];
        }
      }
    }
  }

  lemma {:induction false} TextKeysBalanced(strokes: seq<Stroke>, shift: nat)
    ensures Balanced(TextKeys(strokes, shift))
  {
    if strokes != [] {
      var last := StrokeKeys(strokes[|strokes| - 1], shift);
      TextKeysBalanced(strokes[..|strokes| - 1], shift);
      forall i: nat | i < |last| ensures Released(last, i) {
        if i == 0 {
          assert last[|last| - 1] == Release(last[0].key);
        } else if i == 1 && last[1].Press? {
          assert last[2] == Release(last[1].key);
        }
      }
      BalancedAppend(TextKeys(strokes[..|strokes| - 1], shift), last);
    }
  }

  /** A key is left held only if a press of it arrived and no release of it arrived afterwards. */
  ghost predicate Stuck(log: seq<Sent>, key: nat, i: nat) {
    && i < |log| && log[i] == Sent(Press(key), true)
    && forall j :: i < j < |log| ==> log[j] != Sent(Release(key), true)
  }

  lemma {:induction false} HeldMeansStuck(log: seq<Sent>, key: nat) returns (i: nat)
    requires key in Held(log)
    ensures Stuck(log, key, i)
  {
    var n := |log| - 1;
    if log[n] == Sent(Press(key), true) {
      i := n;
    } else {
      i := HeldMeansStuck(log[..n], key);
      assert log[i] == log[..n][i];
      forall j | i < j < |log| ensures log[j] != Sent(Release(key), true) {
        assert j < n ==> log[j] == log[..n][j];
      }
    }
  }

  /** So whatever is sent with every press followed by a release leaves a key held only where that release was lost. */
  lemma OnlyLostReleasesHold(log: seq<Sent>, key: nat) returns (j: nat)
    requires Balanced(Transitions(log)) && key in Held(log)
    ensures j < |log| && log[j] == Sent(Release(key), false)
  {
    var i := HeldMeansStuck(log, key);
    assert Released(Transitions(log), i);
    j :| i < j < |log| && Transitions(log)[j] == Release(key);
  }

  // ---------------------------------------------------------------- what the seat makes of a complete text

  /** One more delivered transition. */
  lemma SeatStep(log: seq<Sent>, t: Transition, shift: nat)
    ensures var next := log + [Sent(t, true)];
      && Held(next) == (if t.Press? then Held(log) + {t.key} else Held(log) - {t.key})
      && Seen(next, shift) == Seen(log, shift) +
         (if t.Press? && t.key != shift then [Typing(t.key, shift in Held(log))] else [])
  {
    assert (log + [Sent(t, true)])[..|log|] == log;
  }

  lemma DeliveredStroke(log: seq<Sent>, s: Stroke, shift: nat)
    ensures var keys := StrokeKeys(s, shift);
      var two := log + [Sent(keys[0], true)] + [Sent(keys[1], true)];
      log + Delivered(keys) == if s.shift then two + [Sent(keys[2], true)] + [Sent(keys[3], true)] else two
  {
  }

  lemma StrokeOnSeat(log: seq<Sent>, s: Stroke, shift: nat)
    requires Held(log) == {} && s.keycode != shift
    ensures Held(log + Delivered(StrokeKeys(s, shift))) == {}
    ensures Seen(log + Delivered(StrokeKeys(s, shift)), shift) == Seen(log, shift) + [Typing(s.keycode, s.shift)]
  {
    DeliveredStroke(log, s, shift);
    var keys := StrokeKeys(s, shift);
    var one := log + [Sent(keys[0], true)];
    SeatStep(log, keys[0], shift);
    SeatStep(one, keys[1], shift);
    if s.shift {
      var two := one + [Sent(keys[1], true)];
      SeatStep(two, keys[2], shift);
      SeatStep(two + [Sent(keys[2], true)], keys[3], shift);
    }
  }

  /** No character of the text is typed with the shift key itself. */
  predicate ShiftIsNoCharacter(strokes: seq<Stroke>, shift: nat) {
    forall i :: 0 <= i < |strokes| ==> strokes[i].keycode != shift
  }

  /**
   Between characters nothing is held, and the seat has typed exactly the characters so far, each shifted as the
   artifact says.
   */
  lemma {:induction false} SeatTypesText(strokes: seq<Stroke>, shift: nat)
    requires ShiftIsNoCharacter(strokes, shift)
    ensures Held(Delivered(TextKeys(strokes, shift))) == {}
    ensures Seen(Delivered(TextKeys(strokes, shift)), shift) == Wanted(strokes)
  {
    if strokes != [] {
      var n := |strokes| - 1;
      var before := Delivered(TextKeys(strokes[..n], shift));
      SeatTypesText(strokes[..n], shift);
      StrokeOnSeat(before, strokes[n], shift);
      assert Delivered(TextKeys(strokes, shift)) == before + Delivered(StrokeKeys(strokes[n], shift));
      assert Wanted(strokes) == Wanted(strokes[..n]) + [Typing(strokes[n].keycode, strokes[n].shift)];
    }
  }

  function CountTypes(strokes: seq<Stroke>, shift: nat): nat {
    if strokes == [] then 0
    else CountTypes(strokes[..|strokes| - 1], shift) + (if strokes[|strokes| - 1].keycode == shift then 0 else 1)
  }

  lemma {:induction false} SeenAppend(log: seq<Sent>, more: seq<Sent>, shift: nat)
    ensures |Seen(log + more, shift)| == |Seen(log, shift)| + |Seen(more, shift)|
    decreases |more|
  {
    if more == [] {
      assert log + more == log;
    } else {
      assert (log + more)[..|log + more| - 1] == log + more[..|more| - 1];
      SeenAppend(log, more[..|more| - 1], shift);
    }
  }

  lemma SeenOfStroke(s: Stroke, shift: nat)
    ensures |Seen(Delivered(StrokeKeys(s, shift)), shift)| == if s.keycode == shift then 0 else 1
  {
    var keys := StrokeKeys(s, shift);
    var log := Delivered(keys);
    assert log[..0] == [];
    assert log[..1] == [Sent(keys[0], true)] && log[..2] == log[..1] + [Sent(keys[1], true)];
    SeatStep([], keys[0], shift);
    SeatStep(log[..1], keys[1], shift);
    if s.shift {
      assert log[..3] == log[..2] + [Sent(keys[2], true)] && log == log[..3] + [Sent(keys[3], true)];
      SeatStep(log[..2], keys[2], shift);
      SeatStep(log[..3], keys[3], shift);
    } else {
      assert log == log[..2];
    }
  }

  lemma {:induction false} SeenOfText(strokes: seq<Stroke>, shift: nat)
    ensures |Seen(Delivered(TextKeys(strokes, shift)), shift)| == CountTypes(strokes, shift)
  {
    if strokes != [] {
      var n := |strokes| - 1;
      SeenOfText(strokes[..n], shift);
      SeenOfStroke(strokes[n], shift);
      SeenAppend(Delivered(TextKeys(strokes[..n], shift)), Delivered(StrokeKeys(strokes[n], shift)), shift);
      assert Delivered(TextKeys(strokes, shift)) == Delivered(TextKeys(strokes[..n], shift))
        + Delivered(StrokeKeys(strokes[n], shift));
    }
  }

  lemma {:induction false} AllCounted(strokes: seq<Stroke>, shift: nat)
    ensures CountTypes(strokes, shift) <= |strokes|
    ensures CountTypes(strokes, shift) == |strokes| <==> ShiftIsNoCharacter(strokes, shift)
  {
    if strokes != [] {
      var n := |strokes| - 1;
      AllCounted(strokes[..n], shift);
      assert ShiftIsNoCharacter(strokes, shift) <==>
        ShiftIsNoCharacter(strokes[..n], shift) && strokes[n].keycode != shift;
    }
  }

  /**
   A complete text is typed as the artifact says exactly when none of its characters is typed with the shift key
   itself.
   */
  lemma TypedAsWantedIff(strokes: seq<Stroke>, shift: nat)
    ensures Seen(Delivered(TextKeys(strokes, shift)), shift) == Wanted(strokes) <==> ShiftIsNoCharacter(strokes, shift)
  {
    SeenOfText(strokes, shift);
    AllCounted(strokes, shift);
    if ShiftIsNoCharacter(strokes, shift) {
      SeatTypesText(strokes, shift);
    }
  }

  // ---------------------------------------------------------------- resolving the text

  predicate Typable(a: Artifact, text: string) {
    forall i :: 0 <= i < |text| ==> text[i] in a.runes
  }

  function Strokes(a: Artifact, text: string): seq<Stroke>
    requires Typable(a, text)
  {
    seq(|text|, i requires 0 <= i < |text| => a.runes[text[i]])
  }

  /** A character's bytes in UTF-8, as section 3 of RFC 3629 lays them out. */
  function Utf8(c: char): seq<int> {
    var n := c as int;
    if n < 0x80 then [n]
    else if n < 0x800 then [0xC0 + n / 0x40, 0x80 + n % 0x40]
    else if n < 0x1_0000 then [0xE0 + n / 0x1000, 0x80 + n / 0x40 % 0x40, 0x80 + n % 0x40]
    else [0xF0 + n / 0x4_0000, 0x80 + n / 0x1000 % 0x40, 0x80 + n / 0x40 % 0x40, 0x80 + n % 0x40]
  }

  /** The code point that these bytes stand for. */
  function FromUtf8(bytes: seq<int>): int
    requires 1 <= |bytes| <= 4
  {
    if |bytes| == 1 then bytes[0]
    else if |bytes| == 2 then (bytes[0] - 0xC0) * 0x40 + (bytes[1] - 0x80)
    else if |bytes| == 3 then (bytes[0] - 0xE0) * 0x1000 + (bytes[1] - 0x80) * 0x40 + (bytes[2] - 0x80)
    else
      (bytes[0] - 0xF0) * 0x4_0000 + (bytes[1] - 0x80) * 0x1000 + (bytes[2] - 0x80) * 0x40 + (bytes[3] - 0x80)
  }

  lemma Utf8RoundTrip(c: char)
    ensures 1 <= |Utf8(c)| <= 4 && FromUtf8(Utf8(c)) == c as int
    ensures forall i :: 0 <= i < |Utf8(c)| ==> 0 <= Utf8(c)[i] < 0x100
    ensures forall i :: 0 < i < |Utf8(c)| ==> 0x80 <= Utf8(c)[i] < 0xC0
  {
    var n := c as int;
    var high, higher := n / 0x40, n / 0x1000;
    assert n == 0x40 * high + n % 0x40;
    assert high == 0x40 * (high / 0x40) + high % 0x40 && high / 0x40 == higher;
    assert higher == 0x40 * (higher / 0x40) + higher % 0x40 && higher / 0x40 == n / 0x4_0000;
  }

  /** A text's bytes. */
  function Utf8Text(text: string): seq<int> {
    if text == "" then [] else Utf8Text(text[..|text| - 1]) + Utf8(text[|text| - 1])
  }

  /** How many bytes a character takes in UTF-8. */
  function Width(c: char): (width: nat)
    ensures width == |Utf8(c)|
  {
    if c as int < 0x80 then 1 else if c as int < 0x800 then 2 else if c as int < 0x1_0000 then 3 else 4
  }

  function ByteOffset(text: string): (offset: nat)
    ensures offset == |Utf8Text(text)|
  {
    if text == "" then 0 else ByteOffset(text[..|text| - 1]) + Width(text[|text| - 1])
  }

  /** The byte offset of the first character that cannot be typed. */
  ghost predicate FirstUntypable(a: Artifact, text: string, offset: nat) {
    exists i :: 0 <= i < |text| && text[i] !in a.runes && Typable(a, text[..i]) && offset == ByteOffset(text[..i])
  }

  datatype Resolved = Resolved(strokes: seq<Stroke>) | CannotType(offset: nat)

  /** Sequence: either the whole text or none of it. */
  method Sequence(a: Artifact, text: string) returns (r: Resolved)
    ensures r.Resolved? <==> Typable(a, text)
    ensures r.Resolved? ==> r.strokes == Strokes(a, text)
    ensures r.CannotType? ==> FirstUntypable(a, text, r.offset)
    ensures r.Resolved? ==>
      |r.strokes| == |text| && forall i :: 0 <= i < |text| ==> text[i] in a.runes && r.strokes[i] == a.runes[text[i]]
    ensures r.CannotType? ==>
      exists i :: 0 <= i < |text| && text[i] !in a.runes && r.offset == |Utf8Text(text[..i])|
        && forall j :: 0 <= j < i ==> text[j] in a.runes
  {
    var strokes: seq<Stroke>, offset := [], 0;
    for i := 0 to |text|
      invariant Typable(a, text[..i]) && strokes == Strokes(a, text[..i]) && offset == ByteOffset(text[..i])
    {
      if text[i] !in a.runes {
        assert forall j :: 0 <= j < i ==> text[..i][j] == text[j];
        return CannotType(offset);
      }
      strokes := strokes + [a.runes[text[i]]];
      offset := offset + Width(text[i]);
      assert text[..i + 1][..i] == text[..i];
    }
    assert text[..|text|] == text;
    return Resolved(strokes);
  }

  /** Every key that is sent lies in the evdev range, so none travels as a request without a key. */
  lemma {:induction false} KeysAreSendable(a: Artifact, text: string, i: nat)
    requires ValidArtifact(a) && Typable(a, text) && SHIFT_NAME in a.named
    requires i < |TextKeys(Strokes(a, text), a.named[SHIFT_NAME].keycode)|
    ensures KEYCODE_MIN <= TextKeys(Strokes(a, text), a.named[SHIFT_NAME].keycode)[i].key <= KEYCODE_MAX
    decreases |text|
  {
    var shift := a.named[SHIFT_NAME].keycode;
    var n := |text| - 1;
    var before := TextKeys(Strokes(a, text[..n]), shift);
    assert Strokes(a, text)[..n] == Strokes(a, text[..n]);
    assert TextKeys(Strokes(a, text), shift) == before + StrokeKeys(a.runes[text[n]], shift);
    assert ValidStroke(a.runes[text[n]]) && ValidStroke(a.named[SHIFT_NAME]);
    if i < |before| {
      KeysAreSendable(a, text[..n], i);
    }
  }

  // ---------------------------------------------------------------- sending

  /** A call that was answered was delivered; one that was not may have been delivered or not. */
  ghost predicate Honest(replies: nat -> Reply) {
    forall n: nat :: replies(n).ok ==> replies(n).delivered
  }

  /** These calls were all answered. */
  ghost predicate Answered(replies: nat -> Reply, from: nat, to: nat) {
    forall k: nat :: from <= k < to ==> replies(k).ok
  }

  /** The last of these calls was not answered, and all before it were. */
  ghost predicate FirstLost(replies: nat -> Reply, from: nat, to: nat) {
    from < to && Answered(replies, from, to - 1) && !replies(to - 1).ok
  }

  /** The session behind the caller: what was sent so far, and how each further call will end. */
  class Session {
    const replies: nat -> Reply
    var sent: seq<Sent>

    constructor (replies: nat -> Reply)
      ensures sent == [] && this.replies == replies
    {
      this.replies, this.sent := replies, [];
    }

    /** sendKey. */
    method SendKey(t: Transition) returns (ok: bool)
      requires Honest(replies)
      modifies this
      ensures sent == old(sent) + [Sent(t, replies(|old(sent)|).delivered)]
      ensures ok ==> sent == old(sent) + [Sent(t, true)]
      ensures ok == replies(|old(sent)|).ok
      ensures Transitions(sent) == Transitions(old(sent)) + [t]
    {
      var reply := replies(|sent|);
      sent := sent + [Sent(t, reply.delivered)];
      ok := reply.ok;
    }

    /** releaseKeys: shift first, then the keys in reverse order, whatever becomes of each call. */
    method ReleaseKeys(shift: nat, shiftDown: bool, pressed: seq<nat>)
      requires Honest(replies)
      modifies this
      ensures old(sent) <= sent && Transitions(sent) == Transitions(old(sent)) + Cleanup(shift, shiftDown, pressed)
    {
      if shiftDown {
        var _ := SendKey(Release(shift));
      }
      var i := |pressed|;
      while i > 0
        invariant 0 <= i <= |pressed|
        invariant old(sent) <= sent
        invariant Transitions(sent) == Transitions(old(sent)) + Cleanup(shift, shiftDown, pressed[i..])
      {
        i := i - 1;
        var _ := SendKey(Release(pressed[i]));
        assert pressed[i..][1..] == pressed[i + 1..];
      }
      assert pressed[0..] == pressed;
    }

    /**
     Type. A text that cannot be typed sends nothing; a finished one sent exactly its keys, all delivered; a failed
     one sent a first part of them and then releases, so that every press it sent is followed by a release of the
     same key.
     */
    method Type(a: Artifact, text: string) returns (r: Result)
      requires Honest(replies)
      modifies this
      ensures r.EmptyText? <==> text == ""
      ensures r.Untypable? <==> text != "" && !Typable(a, text)
      ensures r.Untypable? ==> FirstUntypable(a, text, r.offset)
      ensures r.NoShift? <==> text != "" && Typable(a, text) && SHIFT_NAME !in a.named
      ensures r.EmptyText? || r.Untypable? || r.NoShift? ==> sent == old(sent)
      ensures r.Completed? ==>
        && r.strokes == |text|
        && sent == old(sent) + Delivered(TextKeys(Strokes(a, text), a.named[SHIFT_NAME].keycode))
        && Answered(replies, |old(sent)|, |sent|)
      ensures r.CallFailed? ==>
        old(sent) <= sent && Abandoned(Strokes(a, text), a.named[SHIFT_NAME].keycode, Transitions(sent)[|old(sent)|..])
      ensures r.CallFailed? ==>
        Stops(
          replies, |old(sent)|, Strokes(a, text), a.named[SHIFT_NAME].keycode, Transitions(sent)[|old(sent)|..])
    {
      if text == "" {
        return EmptyText;
      }
      var resolved := Sequence(a, text);
      if resolved.CannotType? {
        return Untypable(resolved.offset);
      }
      var strokes := resolved.strokes;
      if SHIFT_NAME !in a.named {
        return NoShift;
      }
      var shift := a.named[SHIFT_NAME].keycode;
      var ok := TypeStrokes(strokes, shift);
      return if ok then Completed(|strokes|) else CallFailed;
    }

    /** The loop over the characters. */
    method TypeStrokes(strokes: seq<Stroke>, shift: nat) returns (ok: bool)
      requires Honest(replies)
      modifies this
      ensures old(sent) <= sent
      ensures ok ==> sent == old(sent) + Delivered(TextKeys(strokes, shift)) && Answered(replies, |old(sent)|, |sent|)
      ensures !ok ==>
        && Abandoned(strokes, shift, Transitions(sent)[|old(sent)|..])
        && Stops(replies, |old(sent)|, strokes, shift, Transitions(sent)[|old(sent)|..])
    {
      for i := 0 to |strokes|
        invariant sent == old(sent) + Delivered(TextKeys(strokes[..i], shift))
        invariant Answered(replies, |old(sent)|, |sent|)
      {
        ghost var start := sent;
        ghost var part, left;
        ok, part, left := TypeStroke(strokes[i], shift);
        if !ok {
          AbandonedAt(strokes, shift, i, part, left, old(sent), start, sent);
          StoppedAt(replies, strokes, shift, i, part, left, old(sent), start, sent);
          return;
        }
        StrokeSent(old(sent), strokes, shift, i, start, sent);
      }
      assert strokes[..|strokes|] == strokes;
      ok := true;
    }

    /** One transition of a stroke; if it is not answered, everything that may be down is released. */
    method SendNext(
        t: Transition, shiftDown: bool, pressed: seq<nat>, stroke: Stroke, shift: nat, ghost first: seq<Sent>,
        ghost part: nat)
      returns (ok: bool)
      requires Honest(replies) && shiftDown == stroke.shift
      requires part < |StrokeKeys(stroke, shift)| && t == StrokeKeys(stroke, shift)[part]
      requires Open(stroke, part + 1, pressed)
      requires sent == first + Delivered(StrokeKeys(stroke, shift)[..part]) && Answered(replies, |first|, |sent|)
      modifies this
      ensures first <= sent
      ensures ok ==>
        sent == first + Delivered(StrokeKeys(stroke, shift)[..part + 1]) && Answered(replies, |first|, |sent|)
      ensures !ok ==>
        && GaveUp(stroke, shift, part + 1, pressed, Transitions(first), Transitions(sent))
        && FirstLost(replies, |first|, |first| + part + 1)
    {
      ghost var before := sent;
      ok := SendKey(t);
      NextPart(first, StrokeKeys(stroke, shift), part, before, sent);
      if !ok {
        before := sent;
        ReleaseKeys(shift, shiftDown, pressed);
        Gives(first, stroke, shift, part + 1, pressed, before, sent);
      }
    }

    /** One character: neither shift nor a key is down when it starts, and neither is when it has succeeded. */
    method TypeStroke(stroke: Stroke, shift: nat) returns (ok: bool, ghost part: nat, ghost left: seq<nat>)
      requires Honest(replies)
      modifies this
      ensures old(sent) <= sent
      ensures ok ==> sent == old(sent) + Delivered(StrokeKeys(stroke, shift)) && Answered(replies, |old(sent)|, |sent|)
      ensures !ok ==>
        && GaveUp(stroke, shift, part, left, Transitions(old(sent)), Transitions(sent))
        && FirstLost(replies, |old(sent)|, |old(sent)| + part)
    {
      var shiftDown, pressed: seq<nat> := false, [];
      part := 0;
      if stroke.shift && !shiftDown {
        shiftDown := true;
        ok := SendNext(Press(shift), shiftDown, pressed, stroke, shift, old(sent), part);
        part := part + 1;
        if !ok {
          return ok, part, pressed;
        }
      }
      pressed := pressed + [stroke.keycode];
      ok := SendNext(Press(stroke.keycode), shiftDown, pressed, stroke, shift, old(sent), part);
      part := part + 1;
      if !ok {
        return ok, part, pressed;
      }
      ok := SendNext(Release(stroke.keycode), shiftDown, pressed, stroke, shift, old(sent), part);
      part := part + 1;
      if !ok {
        return ok, part, pressed;
      }
      pressed := pressed[..|pressed| - 1];
      if stroke.shift && shiftDown {
        ok := SendNext(Release(shift), shiftDown, pressed, stroke, shift, old(sent), part);
        part := part + 1;
        if !ok {
          return ok, part, pressed;
        }
        shiftDown := false;
      }
      left := pressed;
      assert StrokeKeys(stroke, shift)[..part] == StrokeKeys(stroke, shift);
    }

    /** Tap: the release is sent whatever became of the press. */
    method Tap(key: nat) returns (ok: bool)
      requires Honest(replies)
      modifies this
      ensures old(sent) <= sent && Transitions(sent) == Transitions(old(sent)) + [Press(key), Release(key)]
      ensures ok ==> sent == old(sent) + Delivered([Press(key), Release(key)])
    {
      var pressOk := SendKey(Press(key));
      var releaseOk := SendKey(Release(key));
      ok := pressOk && releaseOk;
    }
  }

  /**
   A first part of the text's keys, then releases; every press among them is followed by a release of the same key.
   */
  ghost predicate Abandoned(strokes: seq<Stroke>, shift: nat, keys: seq<Transition>) {
    Balanced(keys) && exists n: nat, shiftDown, pressed :: StopsAfter(strokes, shift, keys, n, shiftDown, pressed)
  }

  predicate StopsAfter(
      strokes: seq<Stroke>, shift: nat, keys: seq<Transition>, n: nat, shiftDown: bool, pressed: seq<nat>) {
    0 < n <= |TextKeys(strokes, shift)| && keys == TextKeys(strokes, shift)[..n] + Cleanup(shift, shiftDown, pressed)
  }

  /** Shift is released if the stroke uses it, and the key if it was pressed and its release not answered. */
  function CleanupOf(s: Stroke, shift: nat, part: nat): seq<Transition> {
    var before := if s.shift then 1 else 0;
    (if s.shift then [Release(shift)] else []) + (if before < part <= before + 2 then [Release(s.keycode)] else [])
  }

  /** Typing stopped in stroke i after the first part of its keys, and cleaned up. */
  predicate StopsIn(strokes: seq<Stroke>, shift: nat, i: nat, part: nat, keys: seq<Transition>) {
    && i < |strokes| && 0 < part <= |StrokeKeys(strokes[i], shift)|
    && keys ==
       TextKeys(strokes[..i], shift) + StrokeKeys(strokes[i], shift)[..part] + CleanupOf(strokes[i], shift, part)
  }

  /** It stopped at the first call that was not answered. */
  ghost predicate Stops(replies: nat -> Reply, start: nat, strokes: seq<Stroke>, shift: nat, keys: seq<Transition>) {
    exists i: nat, part: nat ::
      && StopsIn(strokes, shift, i, part, keys)
      && FirstLost(replies, start, start + |TextKeys(strokes[..i], shift)| + part)
  }

  /** Releases of the keys, last first. */
  function Reversed(pressed: seq<nat>): seq<Transition> {
    if pressed == [] then [] else Reversed(pressed[1..]) + [Release(pressed[0])]
  }

  function Cleanup(shift: nat, shiftDown: bool, pressed: seq<nat>): seq<Transition> {
    (if shiftDown then [Release(shift)] else []) + Reversed(pressed)
  }

  /** Cleanup, release by release: shift first if it is down, then the keys, the last pressed first. */
  lemma {:induction false} CleanupInFull(shift: nat, shiftDown: bool, pressed: seq<nat>, k: nat)
    requires k < |pressed|
    ensures var (cleanup, first) := (Cleanup(shift, shiftDown, pressed), if shiftDown then 1 else 0);
      && |cleanup| == first + |pressed| && (shiftDown ==> cleanup[0] == Release(shift))
      && cleanup[first + k] == Release(pressed[|pressed| - 1 - k])
  {
    ReversedAt(pressed, k);
  }

  lemma {:induction false} ReversedAt(pressed: seq<nat>, k: nat)
    requires k < |pressed|
    ensures |Reversed(pressed)| == |pressed| && Reversed(pressed)[k] == Release(pressed[|pressed| - 1 - k])
  {
    if |pressed| > 1 {
      ReversedAt(pressed[1..], if k < |pressed| - 1 then k else 0);
    }
  }

  lemma StrokeSent(first: seq<Sent>, strokes: seq<Stroke>, shift: nat, i: nat, start: seq<Sent>, now: seq<Sent>)
    requires i < |strokes|
    requires start == first + Delivered(TextKeys(strokes[..i], shift))
    requires now == start + Delivered(StrokeKeys(strokes[i], shift))
    ensures now == first + Delivered(TextKeys(strokes[..i + 1], shift))
  {
    assert strokes[..i + 1][..i] == strokes[..i];
  }

  lemma {:induction false} TextKeysPrefix(strokes: seq<Stroke>, shift: nat, i: nat)
    requires i <= |strokes|
    ensures TextKeys(strokes[..i], shift) <= TextKeys(strokes, shift)
    decreases |strokes|
  {
    if i < |strokes| {
      var init := strokes[..|strokes| - 1];
      TextKeysPrefix(init, shift, i);
      assert init[..i] == strokes[..i];
    } else {
      assert strokes[..i] == strokes;
    }
  }

  /** The keys pressed but not yet known to be released after a part of a stroke. */
  predicate Open(s: Stroke, part: nat, pressed: seq<nat>) {
    var base := if s.shift then 1 else 0;
    pressed == if base < part <= base + 2 then [s.keycode] else []
  }

  /** Exactly the first part of these keys has been sent, all of it but perhaps the last delivered. */
  predicate SentPart(first: seq<Sent>, keys: seq<Transition>, part: nat, now: seq<Sent>) {
    part <= |keys| && first <= now && Transitions(now) == Transitions(first) + keys[..part]
  }

  lemma NextPart(first: seq<Sent>, keys: seq<Transition>, part: nat, before: seq<Sent>, now: seq<Sent>)
    requires SentPart(first, keys, part, before) && part < |keys|
    requires before <= now && Transitions(now) == Transitions(before) + [keys[part]]
    ensures SentPart(first, keys, part + 1, now)
    ensures before == first + Delivered(keys[..part]) && now == before + [Sent(keys[part], true)] ==>
      now == first + Delivered(keys[..part + 1])
    ensures part == 0 && |before| == |first| ==> before == first + Delivered(keys[..0])
  {
  }

  lemma Gives(first: seq<Sent>, s: Stroke, shift: nat, part: nat, left: seq<nat>, before: seq<Sent>, now: seq<Sent>)
    requires SentPart(first, StrokeKeys(s, shift), part, before) && 0 < part && Open(s, part, left)
    requires before <= now && Transitions(now) == Transitions(before) + Cleanup(shift, s.shift, left)
    ensures GaveUp(s, shift, part, left, Transitions(first), Transitions(now)) && first <= now
  {
  }

  /** A failed stroke sent a part of its keys, then released shift if it used it and whatever else is open. */
  predicate GaveUp(s: Stroke, shift: nat, part: nat, left: seq<nat>, before: seq<Transition>, after: seq<Transition>) {
    && 0 < part <= |StrokeKeys(s, shift)| && Open(s, part, left)
    && after == before + (StrokeKeys(s, shift)[..part] + Cleanup(shift, s.shift, left))
  }

  lemma PartBalanced(s: Stroke, shift: nat, part: nat, pressed: seq<nat>)
    requires 0 < part <= |StrokeKeys(s, shift)| && Open(s, part, pressed)
    ensures Balanced(StrokeKeys(s, shift)[..part] + Cleanup(shift, s.shift, pressed))
  {
    var keys := StrokeKeys(s, shift)[..part] + Cleanup(shift, s.shift, pressed);
    assert pressed != [] ==> pressed[1..] == [] && Reversed(pressed) == [Release(s.keycode)];
    forall i: nat | i < |keys| ensures Released(keys, i) {
      if keys[i].Press? {
        if s.shift && i == 0 {
          assert keys[part] == Release(shift);
        } else if pressed != [] {
          assert keys[|keys| - 1] == Release(s.keycode);
        } else {
          assert keys[2] == Release(s.keycode);
        }
      }
    }
  }

  lemma SentSince(first: seq<Sent>, done: seq<Transition>, start: seq<Sent>, tail: seq<Transition>, now: seq<Sent>)
    requires start == first + Delivered(done) && Transitions(now) == Transitions(start) + tail
    ensures |now| == |first| + |done| + |tail| && Transitions(now)[|first|..] == done + tail
  {
    assert Transitions(start) == Transitions(first) + done;
    assert |Transitions(now)| == |now| && |Transitions(start)| == |start|;
  }

  /** A failure in stroke i leaves the session with the keys so far, a part of that stroke and the cleanup. */
  lemma AbandonedAt(
      strokes: seq<Stroke>, shift: nat, i: nat, part: nat, left: seq<nat>, first: seq<Sent>, start: seq<Sent>,
      now: seq<Sent>)
    requires i < |strokes| && GaveUp(strokes[i], shift, part, left, Transitions(start), Transitions(now))
    requires start == first + Delivered(TextKeys(strokes[..i], shift))
    ensures |first| <= |now| && Abandoned(strokes, shift, Transitions(now)[|first|..])
  {
    var done, tail := TextKeys(strokes[..i], shift), StrokeKeys(strokes[i], shift)[..part]
      + Cleanup(shift, strokes[i].shift, left);
    SentSince(first, done, start, tail, now);
    AbandonedKeys(strokes, shift, i, part, left);
  }

  /** And it stopped at the first call that was not answered. */
  lemma StoppedAt(
      replies: nat -> Reply, strokes: seq<Stroke>, shift: nat, i: nat, part: nat, left: seq<nat>, first: seq<Sent>,
      start: seq<Sent>, now: seq<Sent>)
    requires i < |strokes| && GaveUp(strokes[i], shift, part, left, Transitions(start), Transitions(now))
    requires start == first + Delivered(TextKeys(strokes[..i], shift))
    requires Answered(replies, |first|, |start|) && FirstLost(replies, |start|, |start| + part)
    ensures |first| <= |now| && Stops(replies, |first|, strokes, shift, Transitions(now)[|first|..])
  {
    var done, keys := TextKeys(strokes[..i], shift), StrokeKeys(strokes[i], shift)[..part];
    CleanupOpen(strokes[i], shift, part, left);
    SentSince(first, done, start, keys + Cleanup(shift, strokes[i].shift, left), now);
    StopsParts(done, keys, Cleanup(shift, strokes[i].shift, left), strokes, shift, i, part);
    assert FirstLost(replies, |first|, |first| + |done| + part);
  }

  lemma StopsParts(
      done: seq<Transition>, keys: seq<Transition>, cleanup: seq<Transition>, strokes: seq<Stroke>, shift: nat, i: nat,
      part: nat)
    requires i < |strokes| && 0 < part <= |StrokeKeys(strokes[i], shift)|
    requires done == TextKeys(strokes[..i], shift) && keys == StrokeKeys(strokes[i], shift)[..part]
    requires cleanup == CleanupOf(strokes[i], shift, part)
    ensures StopsIn(strokes, shift, i, part, done + (keys + cleanup))
  {
    assert done + (keys + cleanup) == done + keys + cleanup;
  }

  lemma CleanupOpen(s: Stroke, shift: nat, part: nat, left: seq<nat>)
    requires Open(s, part, left)
    ensures Cleanup(shift, s.shift, left) == CleanupOf(s, shift, part)
  {
    assert left != [] ==> left[1..] == [] && Reversed(left) == [Release(s.keycode)];
  }

  lemma AbandonedKeys(strokes: seq<Stroke>, shift: nat, i: nat, part: nat, left: seq<nat>)
    requires i < |strokes| && 0 < part <= |StrokeKeys(strokes[i], shift)| && Open(strokes[i], part, left)
    ensures Abandoned(strokes, shift,
      TextKeys(strokes[..i], shift) + (StrokeKeys(strokes[i], shift)[..part] + Cleanup(shift, strokes[i].shift, left)))
  {
    var done, keys, cleanup :=
      TextKeys(strokes[..i], shift), StrokeKeys(strokes[i], shift), Cleanup(shift, strokes[i].shift, left);
    TextKeysBalanced(strokes[..i], shift);
    PartBalanced(strokes[i], shift, part, left);
    BalancedAppend(done, keys[..part] + cleanup);
    assert strokes[..i + 1][..i] == strokes[..i];
    TextKeysPrefix(strokes, shift, i + 1);
    PartOfPrefix(done, keys, part, TextKeys(strokes, shift), cleanup);
    assert StopsAfter(strokes, shift, done + (keys[..part] + cleanup), |done| + part, strokes[i].shift, left);
  }

  lemma PartOfPrefix(
      done: seq<Transition>, keys: seq<Transition>, part: nat, all: seq<Transition>, cleanup: seq<Transition>)
    requires part <= |keys| && done + keys <= all
    ensures |done| + part <= |all| && done + (keys[..part] + cleanup) == all[..|done| + part] + cleanup
  {
    assert all[..|done| + part] == (done + keys)[..|done| + part] == done + keys[..part];
  }

  /** After a failure, a key the text pressed is still held only where a release of it was lost. */
  lemma FailureHoldsOnlyLostReleases(strokes: seq<Stroke>, shift: nat, log: seq<Sent>, key: nat) returns (j: nat)
    requires Abandoned(strokes, shift, Transitions(log)) && key in Held(log)
    ensures j < |log| && log[j] == Sent(Release(key), false)
  {
    j := OnlyLostReleasesHold(log, key);
  }
}
