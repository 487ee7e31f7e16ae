/** inputDecoder.keyboard of internal/display/input.go: key reports become press and release events. */
module Keyboard {
  import opened Geometry
  import opened Operations

  datatype KeyEvent = KeyEvent(hid: nat, pressed: bool, modifiers: Byte)

  const KEYS: nat := 256
  const FIRST_MODIFIER: nat := 0xE0

  /** The keys held in ordinary slots, by HID usage, and the modifier byte. */
  datatype Report = Report(keys: seq<bool>, modifiers: Byte)

  predicate ReportOk(r: Report) { |r.keys| == KEYS && !r.keys[0] }

  /** Modifier i is bit i, counted from the least significant. */
  predicate Modifier(m: Byte, i: nat)
    requires i < 8
  {
    Bit(m, 7 - i)
  }

  // ---------- the events of one report ----------

  /** Ordinary keys below n that go from held to not held, or the other way, in ascending order. */
  function KeyChanges(from: seq<bool>, to: seq<bool>, pressed: bool, modifiers: Byte, n: nat): seq<KeyEvent>
    requires |from| == |to| == KEYS && n <= KEYS
  {
    if n <= 1 then []
    else
      KeyChanges(from, to, pressed, modifiers, n - 1)
      + if from[n - 1] == !pressed && to[n - 1] == pressed then [KeyEvent(n - 1, pressed, modifiers)] else []
  }

  predicate ModifierFlips(from: Byte, to: Byte, pressed: bool, i: nat)
    requires i < 8
  {
    Modifier(from, i) == !pressed && Modifier(to, i) == pressed
  }

  function ModifierChanges(from: Byte, to: Byte, pressed: bool, n: nat): seq<KeyEvent>
    requires n <= 8
  {
    if n == 0 then []
    else
      ModifierChanges(from, to, pressed, n - 1)
      + if ModifierFlips(from, to, pressed, n - 1) then [KeyEvent(FIRST_MODIFIER + n - 1, pressed, to)] else []
  }

  /** Releases before presses, and the modifiers' events between the ordinary keys'. */
  function Events(from: Report, to: Report): seq<KeyEvent>
    requires ReportOk(from) && ReportOk(to)
  {
    KeyChanges(from.keys, to.keys, false, to.modifiers, KEYS) + ModifierChanges(from.modifiers, to.modifiers, false, 8)
    + ModifierChanges(from.modifiers, to.modifiers, true, 8) + KeyChanges(from.keys, to.keys, true, to.modifiers, KEYS)
  }

  /** Every event of a list carries the modifiers. */
  ghost predicate Carry(events: seq<KeyEvent>, modifiers: Byte) {
    forall e :: e in events ==> e.modifiers == modifiers
  }

  lemma {:induction false} KeysCarry(from: seq<bool>, to: seq<bool>, pressed: bool, modifiers: Byte, n: nat)
    requires |from| == |to| == KEYS && n <= KEYS
    ensures Carry(KeyChanges(from, to, pressed, modifiers, n), modifiers)
    decreases n
  {
    if n > 1 {
      KeysCarry(from, to, pressed, modifiers, n - 1);
    }
  }

  lemma {:induction false} ModifiersCarry(from: Byte, to: Byte, pressed: bool, n: nat)
    requires n <= 8
    ensures Carry(ModifierChanges(from, to, pressed, n), to)
    decreases n
  {
    hide ModifierFlips;
    if n > 0 {
      ModifiersCarry(from, to, pressed, n - 1);
    }
  }

  /** Every event of a report carries the modifier byte that the report brings. */
  lemma CarryReported(from: Report, to: Report)
    requires ReportOk(from) && ReportOk(to)
    ensures Carry(Events(from, to), to.modifiers)
  {
    hide KeyChanges, ModifierChanges;
    KeysCarry(from.keys, to.keys, false, to.modifiers, KEYS);
    ModifiersCarry(from.modifiers, to.modifiers, false, 8);
    ModifiersCarry(from.modifiers, to.modifiers, true, 8);
    KeysCarry(from.keys, to.keys, true, to.modifiers, KEYS);
  }

  /** The held keys a report's six slots name. */
  function Slots(slots: seq<Byte>): (keys: seq<bool>)
    ensures |keys| == KEYS && !keys[0]
    ensures forall h :: 0 < h < KEYS ==> (keys[h] <==> h in slots)
  {
    seq(KEYS, h => h > 0 && h in slots)
  }

  class Decoder {
    var keys: seq<bool>
    var modifiers: Byte

    ghost function View(): Report
      reads this
    {
      Report(keys, modifiers)
    }

    constructor ()
      ensures View() == Report(seq(KEYS, _ => false), 0)
    {
      keys, modifiers := seq(KEYS, _ => false), 0;
    }

    method Keyboard(operation: seq<Byte>) returns (r: Result<seq<KeyEvent>>)
      requires ReportOk(View())
      modifies this
      ensures ReportOk(View())
      ensures r.Ok? <==> |operation| >= 16 && operation[0] == 0xC1
      ensures r.Err? ==> View() == old(View())
      ensures r.Ok? ==> View() == Report(Slots(operation[8..14]), operation[7])
                        && r.value == Events(old(View()), View())
      ensures r.Ok? ==> forall e :: e in r.value ==> e.modifiers == operation[7]
    {
      if |operation| < 16 || operation[0] != 0xC1 {
        return Err("short or invalid keyboard operation");
      }
      var reported := operation[7];
      var current := ReadSlots(operation[8..14]);
      var released := DiffKeys(keys, current, false, reported);
      var modifiersReleased := DiffModifiers(modifiers, reported, false);
      var modifiersPressed := DiffModifiers(modifiers, reported, true);
      var pressed := DiffKeys(keys, current, true, reported);
      CarryReported(View(), Report(current, reported));
      keys := current;
      modifiers := reported;
      return Ok(released + modifiersReleased + modifiersPressed + pressed);
    }

    static method ReadSlots(slots: seq<Byte>) returns (current: seq<bool>)
      ensures current == Slots(slots)
    {
      current := seq(KEYS, _ => false);
      var i := 0;
      while i < |slots|
        invariant 0 <= i <= |slots| && |current| == KEYS
        invariant forall h :: 0 <= h < KEYS ==> (current[h] <==> h > 0 && h in slots[..i])
      {
        if slots[i] != 0 {
          current := current[slots[i] := true];
        }
        assert slots[..i + 1] == slots[..i] + [slots[i]];
        i := i + 1;
      }
      assert slots[..i] == slots;
    }

    static method DiffKeys(from: seq<bool>, to: seq<bool>, pressed: bool, modifiers: Byte)
      returns (events: seq<KeyEvent>)
      requires |from| == |to| == KEYS
      ensures events == KeyChanges(from, to, pressed, modifiers, KEYS)
    {
      events := [];
      var hid := 1;
      while hid < KEYS
        invariant 1 <= hid <= KEYS
        invariant events == KeyChanges(from, to, pressed, modifiers, hid)
      {
        if from[hid] != pressed && to[hid] == pressed {
          events := events + [KeyEvent(hid, pressed, modifiers)];
        }
        hid := hid + 1;
      }
    }

    static method DiffModifiers(from: Byte, to: Byte, pressed: bool) returns (events: seq<KeyEvent>)
      ensures events == ModifierChanges(from, to, pressed, 8)
    {
      events := [];
      var bit := 0;
      while bit < 8
        invariant 0 <= bit <= 8
        invariant events == ModifierChanges(from, to, pressed, bit)
      {
        if Modifier(from, bit) != pressed && Modifier(to, bit) == pressed {
          events := events + [KeyEvent(FIRST_MODIFIER + bit, pressed, to)];
        }
        bit := bit + 1;
      }
    }
  }

  // ---------- one key's view ----------

  /** The press and release flags of one key's events. */
  function Project(events: seq<KeyEvent>, hid: nat): seq<bool> {
    if events == [] then []
    else
      Project(events[..|events| - 1], hid)
      + if events[|events| - 1].hid == hid then [events[|events| - 1].pressed] else []
  }

  /** A key's state after flags that strictly alternate from `held`; None if they do not. */
  function KeyAfter(held: bool, flags: seq<bool>): Option<bool> {
    if flags == [] then Some(held)
    else
      match KeyAfter(held, flags[..|flags| - 1])
      case None => None
      case Some(h) => if flags[|flags| - 1] == h then None else Some(!h)
  }

  /** The key is held, in a slot or as a modifier. */
  predicate Held(r: Report, hid: nat)
    requires ReportOk(r) && hid < KEYS
  {
    r.keys[hid] || IsModifierHeld(r, hid)
  }

  predicate IsModifierHeld(r: Report, hid: nat) {
    FIRST_MODIFIER <= hid < FIRST_MODIFIER + 8 && Modifier(r.modifiers, hid - FIRST_MODIFIER)
  }

  /** The key does not stand in a slot and in the modifier byte at once, before or after, unless the
      report leaves both alone. */
  predicate Clean(from: Report, to: Report, hid: nat)
    requires ReportOk(from) && ReportOk(to) && hid < KEYS
  {
    (from.keys[hid] == to.keys[hid] && IsModifierHeld(from, hid) == IsModifierHeld(to, hid))
    || (!(from.keys[hid] && IsModifierHeld(from, hid)) && !(to.keys[hid] && IsModifierHeld(to, hid)))
  }

  lemma {:induction false} ProjectConcat(a: seq<KeyEvent>, b: seq<KeyEvent>, hid: nat)
    ensures Project(a + b, hid) == Project(a, hid) + Project(b, hid)
    decreases |b|
  {
    if b == [] {
      assert a + b == a;
    } else {
      assert (a + b)[..|a + b| - 1] == a + b[..|b| - 1];
      ProjectConcat(a, b[..|b| - 1], hid);
    }
  }

  lemma ProjectAppend(a: seq<KeyEvent>, e: KeyEvent, hid: nat)
    ensures Project(a + [e], hid) == Project(a, hid) + if e.hid == hid then [e.pressed] else []
  {
  }

  lemma {:induction false} ProjectKeys(from: seq<bool>, to: seq<bool>, pressed: bool, modifiers: Byte, n: nat, hid: nat)
    requires |from| == |to| == KEYS && n <= KEYS && hid < KEYS
    ensures Project(KeyChanges(from, to, pressed, modifiers, n), hid)
            == if 1 <= hid < n && from[hid] == !pressed && to[hid] == pressed then [pressed] else []
    decreases n
  {
    hide Project;
    if n <= 1 {
      NoProjection(hid);
    } else {
      ProjectKeys(from, to, pressed, modifiers, n - 1, hid);
      var before := KeyChanges(from, to, pressed, modifiers, n - 1);
      ProjectAppend(before, KeyEvent(n - 1, pressed, modifiers), hid);
      assert before + [] == before;
    }
  }

  lemma NoProjection(hid: nat)
    ensures Project([], hid) == []
  {
  }

  lemma {:induction false} ProjectModifiers(from: Byte, to: Byte, pressed: bool, n: nat, hid: nat)
    requires n <= 8
    ensures Project(ModifierChanges(from, to, pressed, n), hid)
            == if FIRST_MODIFIER <= hid < FIRST_MODIFIER + n && ModifierFlips(from, to, pressed, hid - FIRST_MODIFIER)
               then [pressed] else []
    decreases n
  {
    hide ModifierFlips, Project;
    if n == 0 {
      NoProjection(hid);
    } else {
      var i := n - 1;
      ProjectModifiers(from, to, pressed, i, hid);
      var before := ModifierChanges(from, to, pressed, i);
      if ModifierFlips(from, to, pressed, i) {
        ProjectAppend(before, KeyEvent(FIRST_MODIFIER + i, pressed, to), hid);
        assert FIRST_MODIFIER + i == hid ==> Project(before, hid) == [];
      } else {
        assert before + [] == before;
      }
    }
  }

  lemma KeyAfterShort(held: bool, a: bool, b: bool)
    ensures KeyAfter(held, []) == Some(held)
    ensures KeyAfter(held, [a]) == if a == held then None else Some(!held)
    ensures KeyAfter(held, [a, b]) == if a == held || b == a then None else Some(held)
  {
  }

  /** One report's events for a key alternate and end in the report's state of the key exactly when
      the key is clean. */
  lemma ReportExact(from: Report, to: Report, hid: nat)
    requires ReportOk(from) && ReportOk(to) && 1 <= hid < KEYS
    ensures KeyAfter(Held(from, hid), Project(Events(from, to), hid)) == Some(Held(to, hid)) <==> Clean(from, to, hid)
  {
    hide Modifier;
    var a, a', b, b' := from.keys[hid], to.keys[hid], IsModifierHeld(from, hid), IsModifierHeld(to, hid);
    ProjectEvents(from, to, hid);
    FlagsExact(a, a', b, b');
  }

  /** The flags of a key in slot states a, a' and modifier states b, b'. */
  function Flags(a: bool, a': bool, b: bool, b': bool): seq<bool> {
    (if a && !a' then [false] else []) + (if b && !b' then [false] else [])
    + (if !b && b' then [true] else []) + (if !a && a' then [true] else [])
  }

  lemma ProjectEvents(from: Report, to: Report, hid: nat)
    requires ReportOk(from) && ReportOk(to) && 1 <= hid < KEYS
    ensures Project(Events(from, to), hid)
            == Flags(from.keys[hid], to.keys[hid], IsModifierHeld(from, hid), IsModifierHeld(to, hid))
  {
    hide Modifier, Project, KeyChanges, ModifierChanges;
    var k0 := KeyChanges(from.keys, to.keys, false, to.modifiers, KEYS);
    var m0 := ModifierChanges(from.modifiers, to.modifiers, false, 8);
    var m1 := ModifierChanges(from.modifiers, to.modifiers, true, 8);
    var k1 := KeyChanges(from.keys, to.keys, true, to.modifiers, KEYS);
    ProjectConcat(k0 + m0 + m1, k1, hid);
    ProjectConcat(k0 + m0, m1, hid);
    ProjectConcat(k0, m0, hid);
    ProjectKeys(from.keys, to.keys, false, to.modifiers, KEYS, hid);
    ProjectKeys(from.keys, to.keys, true, to.modifiers, KEYS, hid);
    ProjectModifiers(from.modifiers, to.modifiers, false, 8, hid);
    ProjectModifiers(from.modifiers, to.modifiers, true, 8, hid);
  }

  lemma FlagsExact(a: bool, a': bool, b: bool, b': bool)
    ensures KeyAfter(a || b, Flags(a, a', b, b')) == Some(a' || b')
            <==> (a == a' && b == b') || (!(a && b) && !(a' && b'))
  {
    var f := Flags(a, a', b, b');
    KeyAfterShort(a || b, false, false);
    KeyAfterShort(a || b, false, true);
    KeyAfterShort(a || b, true, true);
    assert f == [] || f == [false] || f == [true] || f == [false, false] || f == [false, true] || f == [true, true];
  }

  // ---------- runs ----------

  /** The events of a sequence of reports, each against the one before. */
  function AllEvents(start: Report, reports: seq<Report>): seq<KeyEvent>
    requires ReportOk(start) && forall r :: r in reports ==> ReportOk(r)
    decreases |reports|
  {
    if reports == [] then []
    else
      var init := reports[..|reports| - 1];
      AllEvents(start, init) + Events(Last(start, init), reports[|reports| - 1])
  }

  function Last(start: Report, reports: seq<Report>): (last: Report)
    ensures last == start || last in reports
  {
    if reports == [] then start else reports[|reports| - 1]
  }

  lemma {:induction false} KeyAfterConcat(held: bool, a: seq<bool>, b: seq<bool>)
    ensures KeyAfter(held, a + b) == match KeyAfter(held, a) case None => None case Some(h) => KeyAfter(h, b)
    decreases |b|
  {
    if b == [] {
      assert a + b == a;
    } else {
      assert (a + b)[..|a + b| - 1] == a + b[..|b| - 1];
      KeyAfterConcat(held, a, b[..|b| - 1]);
    }
  }

  /** Ordinary keys below the modifiers' usages, as the slots of a keyboard report carry them. */
  ghost predicate OrdinarySlots(r: Report) {
    ReportOk(r) && forall h :: FIRST_MODIFIER <= h < KEYS ==> !r.keys[h]
  }

  /** Over any sequence of such reports every key's events strictly alternate, and all of them folded
      together give exactly the keys and modifiers of the last report. */
  lemma {:induction false} ReportsFold(start: Report, reports: seq<Report>, hid: nat)
    requires OrdinarySlots(start) && (forall r :: r in reports ==> ReportOk(r) && OrdinarySlots(r)) && 1 <= hid < KEYS
    ensures KeyAfter(Held(start, hid), Project(AllEvents(start, reports), hid)) == Some(Held(Last(start, reports), hid))
    decreases |reports|
  {
    hide Events, Modifier, Project, KeyAfter;
    if reports == [] {
      NoEvents(Held(start, hid), hid);
    } else {
      var init, last := reports[..|reports| - 1], reports[|reports| - 1];
      assert last in reports;
      ReportsFold(start, init, hid);
      var before := Last(start, init);
      assert OrdinarySlots(before) by {
        if init != [] {
          assert init[|init| - 1] in reports;
        }
      }
      ProjectConcat(AllEvents(start, init), Events(before, last), hid);
      KeyAfterConcat(Held(start, hid), Project(AllEvents(start, init), hid), Project(Events(before, last), hid));
      ReportExact(before, last, hid);
      assert Clean(before, last, hid);
    }
  }

  lemma NoEvents(held: bool, hid: nat)
    ensures KeyAfter(held, Project([], hid)) == Some(held)
  {
  }

  /** A modifier's usage in an ordinary slot breaks this: pressed both ways at once, it is pressed twice. */
  lemma ModifierInSlotPressesTwice() returns (from: Report, to: Report)
    ensures ReportOk(from) && ReportOk(to) && from == Report(seq(KEYS, _ => false), 0)
    ensures to == Report(Slots([0xE0, 0, 0, 0, 0, 0]), 1)
    ensures Project(Events(from, to), 0xE0) == [true, true]
  {
    hide Events, Project;
    from := Report(seq(KEYS, _ => false), 0);
    to := Report(Slots([0xE0, 0, 0, 0, 0, 0]), 1);
    assert to.keys[0xE0];
    assert !Modifier(0, 0) && Modifier(1, 0);
    ProjectEvents(from, to, 0xE0);
  }

  /** The usages ascend, from `low` on and below `high`. */
  ghost predicate Ascending(events: seq<KeyEvent>, low: nat, high: nat) {
    && (forall n :: 0 <= n < |events| ==> low <= events[n].hid < high)
    && (forall m, n :: 0 <= m < n < |events| ==> events[m].hid < events[n].hid)
  }

  /** Releases in [0, j), presses from j on, modifiers' events exactly in [i, k), and every other event
      one of a key whose slot state changes; in each of the four parts the usages ascend. */
  ghost predicate Ordered(from: Report, to: Report, events: seq<KeyEvent>, i: nat, j: nat, k: nat)
    requires ReportOk(from) && ReportOk(to)
  {
    i <= j <= k <= |events|
    && (forall n :: 0 <= n < |events| ==> (events[n].pressed <==> j <= n))
    && (forall n :: i <= n < k ==> FIRST_MODIFIER <= events[n].hid < FIRST_MODIFIER + 8)
    && (forall n :: 0 <= n < |events| && !(i <= n < k) ==>
          events[n].hid < KEYS && from.keys[events[n].hid] != to.keys[events[n].hid])
    && Ascending(events[..i], 1, 256) && Ascending(events[i..j], 0xE0, 0xE8)
    && Ascending(events[j..k], 0xE0, 0xE8) && Ascending(events[k..], 1, 256)
  }

  /** In every report's events releases come before presses, and between the ordinary keys' events
      stand the modifiers'. */
  lemma EventOrder(from: Report, to: Report) returns (i: nat, j: nat, k: nat)
    requires ReportOk(from) && ReportOk(to)
    ensures Ordered(from, to, Events(from, to), i, j, k)
  {
    var k0 := KeyChanges(from.keys, to.keys, false, to.modifiers, KEYS);
    var m0 := ModifierChanges(from.modifiers, to.modifiers, false, 8);
    var m1 := ModifierChanges(from.modifiers, to.modifiers, true, 8);
    var k1 := KeyChanges(from.keys, to.keys, true, to.modifiers, KEYS);
    KeysAscend(from.keys, to.keys, false, to.modifiers, KEYS);
    KeysAscend(from.keys, to.keys, true, to.modifiers, KEYS);
    KeyChangesAre(from.keys, to.keys, false, to.modifiers, KEYS);
    KeyChangesAre(from.keys, to.keys, true, to.modifiers, KEYS);
    ModifierChangesAre(from.modifiers, to.modifiers, false, 8);
    ModifierChangesAre(from.modifiers, to.modifiers, true, 8);
    hide KeyChanges, ModifierChanges;
    i, j, k := |k0|, |k0 + m0|, |k0 + m0 + m1|;
    PartsOrdered(from, to, k0, m0, m1, k1);
  }

  ghost predicate KeyPart(from: seq<bool>, to: seq<bool>, events: seq<KeyEvent>, pressed: bool)
    requires |from| == |to| == KEYS
  {
    && Ascending(events, 1, 256)
    && forall n :: 0 <= n < |events| ==>
         events[n].pressed == pressed && events[n].hid < KEYS && from[events[n].hid] != to[events[n].hid]
  }

  ghost predicate ModifierPart(events: seq<KeyEvent>, pressed: bool) {
    && Ascending(events, 0xE0, 0xE8)
    && forall n :: 0 <= n < |events| ==>
         events[n].pressed == pressed && FIRST_MODIFIER <= events[n].hid < FIRST_MODIFIER + 8
  }

  lemma PartsOrdered(from: Report, to: Report, k0: seq<KeyEvent>, m0: seq<KeyEvent>, m1: seq<KeyEvent>,
                     k1: seq<KeyEvent>)
    requires ReportOk(from) && ReportOk(to)
    requires KeyPart(from.keys, to.keys, k0, false) && KeyPart(from.keys, to.keys, k1, true)
    requires ModifierPart(m0, false) && ModifierPart(m1, true)
    ensures Ordered(from, to, k0 + m0 + m1 + k1, |k0|, |k0 + m0|, |k0 + m0 + m1|)
  {
    hide Ascending;
    var events := k0 + m0 + m1 + k1;
    assert events[..|k0|] == k0 && events[|k0|..|k0 + m0|] == m0;
    assert events[|k0 + m0|..|k0 + m0 + m1|] == m1 && events[|k0 + m0 + m1|..] == k1;
  }

  lemma AscendingMore(events: seq<KeyEvent>, e: KeyEvent, low: nat, high: nat)
    requires Ascending(events, low, high) && low <= e.hid && high <= e.hid
    ensures Ascending(events + [e], low, e.hid + 1)
  {
  }

  lemma AscendingWider(events: seq<KeyEvent>, low: nat, high: nat, higher: nat)
    requires Ascending(events, low, high) && high <= higher
    ensures Ascending(events + [], low, higher)
  {
  }

  lemma {:induction false} KeysAscend(from: seq<bool>, to: seq<bool>, pressed: bool, modifiers: Byte, n: nat)
    requires |from| == |to| == KEYS && n <= KEYS
    ensures Ascending(KeyChanges(from, to, pressed, modifiers, n), 1, Max(n, 1))
    decreases n
  {
    if n > 1 {
      KeysAscend(from, to, pressed, modifiers, n - 1);
      hide Ascending;
      var before := KeyChanges(from, to, pressed, modifiers, n - 1);
      AscendingMore(before, KeyEvent(n - 1, pressed, modifiers), 1, n - 1);
      AscendingWider(before, 1, n - 1, n);
    }
  }

  lemma {:induction false} KeyChangesAre(from: seq<bool>, to: seq<bool>, pressed: bool, modifiers: Byte, n: nat)
    requires |from| == |to| == KEYS && n <= KEYS
    ensures forall i :: 0 <= i < |KeyChanges(from, to, pressed, modifiers, n)| ==>
              var e := KeyChanges(from, to, pressed, modifiers, n)[i];
              e.pressed == pressed && e.hid < KEYS && from[e.hid] != to[e.hid]
    decreases n
  {
    if n > 1 {
      KeyChangesAre(from, to, pressed, modifiers, n - 1);
      var before := KeyChanges(from, to, pressed, modifiers, n - 1);
      assert before + [] == before;
    }
  }

  lemma {:induction false} ModifiersAscend(from: Byte, to: Byte, pressed: bool, n: nat)
    requires n <= 8
    ensures Ascending(ModifierChanges(from, to, pressed, n), 0xE0, 0xE0 + n)
    decreases n
  {
    hide Ascending, ModifierFlips;
    if n > 0 {
      ModifiersAscend(from, to, pressed, n - 1);
      var before := ModifierChanges(from, to, pressed, n - 1);
      AscendingMore(before, KeyEvent(FIRST_MODIFIER + n - 1, pressed, to), 0xE0, 0xE0 + n - 1);
      AscendingWider(before, 0xE0, 0xE0 + n - 1, 0xE0 + n);
    } else {
      NothingAscends(0xE0);
    }
  }

  lemma NothingAscends(low: nat)
    ensures Ascending([], low, low)
  {
  }

  lemma {:induction false} ModifierChangesAre(from: Byte, to: Byte, pressed: bool, n: nat)
    requires n <= 8
    ensures ModifierPart(ModifierChanges(from, to, pressed, n), pressed)
    decreases n
  {
    hide Ascending, ModifierFlips;
    ModifiersAscend(from, to, pressed, n);
    WiderModifiers(ModifierChanges(from, to, pressed, n), n);
    if n > 0 {
      ModifierChangesAre(from, to, pressed, n - 1);
      var before := ModifierChanges(from, to, pressed, n - 1);
      assert before + [] == before;
    }
  }

  lemma WiderModifiers(events: seq<KeyEvent>, n: nat)
    requires n <= 8 && Ascending(events, 0xE0, 0xE0 + n)
    ensures Ascending(events, 0xE0, 0xE8)
  {
  }

  // ---------- what a pressed key carries ----------

  /** The usages 0xE0 to 0xE7 are the bits of the modifier byte, from the least significant. */
  lemma ModifierMasks(r: Report, i: nat)
    requires i < 8
    ensures IsModifierHeld(r, 0xE0 + i) <==> r.modifiers / [1, 2, 4, 8, 16, 32, 64, 128][i] % 2 == 1
  {
  }

  lemma {:induction false} ProjectNone(events: seq<KeyEvent>, hid: nat)
    requires forall e :: e in events ==> e.hid != hid
    ensures Project(events, hid) == []
    decreases |events|
  {
    if events != [] {
      ProjectNone(events[..|events| - 1], hid);
    }
  }

  /** When an ordinary key is pressed, all the modifiers' events of its report have been sent. */
  lemma ModifiersFirst(from: Report, to: Report, n: nat, hid: nat)
    requires OrdinarySlots(from) && OrdinarySlots(to) && n < |Events(from, to)|
    requires Events(from, to)[n].pressed && Events(from, to)[n].hid < 0xE0 && 0xE0 <= hid < KEYS
    ensures Project(Events(from, to)[..n], hid) == Project(Events(from, to), hid)
  {
    hide Project, Events;
    var events := Events(from, to);
    var i, j, k := EventOrder(from, to);
    assert events == events[..n] + events[n..];
    ProjectConcat(events[..n], events[n..], hid);
    forall e | e in events[n..]
      ensures e.hid != hid
    {
      var m :| 0 <= m < |events[n..]| && events[n..][m] == e;
      assert events[n + m] == e;
    }
    ProjectNone(events[n..], hid);
  }

  /** Over any run of ordinary reports, the event of a pressed ordinary key carries exactly the modifiers
      that the events before it leave held: bit i stands for the usage 0xE0 + i. */
  lemma PressCarriesHeldModifiers(start: Report, reports: seq<Report>, to: Report, n: nat, i: nat)
    requires OrdinarySlots(start) && (forall r :: r in reports ==> ReportOk(r) && OrdinarySlots(r))
    requires OrdinarySlots(to) && i < 8
    requires n < |Events(Last(start, reports), to)|
    requires var e := Events(Last(start, reports), to)[n]; e.pressed && e.hid < 0xE0
    ensures var events := Events(Last(start, reports), to);
      KeyAfter(Held(start, 0xE0 + i), Project(AllEvents(start, reports) + events[..n], 0xE0 + i))
      == Some(events[n].modifiers / [1, 2, 4, 8, 16, 32, 64, 128][i] % 2 == 1)
  {
    hide Project, KeyAfter, Events, Modifier;
    var from, h := Last(start, reports), 0xE0 + i;
    var events := Events(from, to);
    ModifiersFirst(from, to, n, h);
    ProjectConcat(AllEvents(start, reports), events[..n], h);
    ProjectConcat(AllEvents(start, reports), events, h);
    var all := reports + [to];
    assert all[..|all| - 1] == reports;
    forall r | r in all
      ensures OrdinarySlots(r) && ReportOk(r)
    {
    }
    ReportsFold(start, all, h);
    assert AllEvents(start, all) == AllEvents(start, reports) + events;
    CarryReported(from, to);
    assert events[n] in events;
    ModifierMasks(to, i);
    assert Held(to, h) == IsModifierHeld(to, h);
  }
}
