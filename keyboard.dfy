/** The keyboard watcher (watchers/keyboard.py): the keycode table of an
    ISO 105-key layout, the metric names derived from it, and the counting
    done by the key-press branch of the record callback. */
module Keyboard {
  import opened Basics
  import opened Values
  import opened XEvents
  import opened Store

  // KEYCODE_TO_NAME, written as the union of its groups in the order of the
  // literal; `+` on maps keeps the right operand on a shared key, as the
  // later entry of a dict literal wins.
  /** Row 1: Escape and F1-F12. */
  const Row1: map<int, string> := map[
      9 := "Escape",
      67 := "F1", 68 := "F2", 69 := "F3", 70 := "F4",
      71 := "F5", 72 := "F6", 73 := "F7", 74 := "F8",
      75 := "F9", 76 := "F10", 95 := "F11", 96 := "F12"]
  /** Row 2: grave, the digits, minus, equal and BackSpace. */
  const Row2: map<int, string> := map[
      49 := "grave", 10 := "1", 11 := "2", 12 := "3", 13 := "4", 14 := "5",
      15 := "6", 16 := "7", 17 := "8", 18 := "9", 19 := "0",
      20 := "minus", 21 := "equal", 22 := "BackSpace"]
  /** Row 3: Tab, q-p, the brackets and backslash. */
  const Row3: map<int, string> := map[
      23 := "Tab", 24 := "q", 25 := "w", 26 := "e", 27 := "r", 28 := "t",
      29 := "y", 30 := "u", 31 := "i", 32 := "o", 33 := "p",
      34 := "bracketleft", 35 := "bracketright", 51 := "backslash"]
  /** Row 4: Caps_Lock, a-l, semicolon, apostrophe and Return. */
  const Row4: map<int, string> := map[
      66 := "Caps_Lock", 38 := "a", 39 := "s", 40 := "d", 41 := "f", 42 := "g",
      43 := "h", 44 := "j", 45 := "k", 46 := "l",
      47 := "semicolon", 48 := "apostrophe", 36 := "Return"]
  /** Row 5: the shifts, less, z-m, comma, period and slash. */
  const Row5: map<int, string> := map[
      50 := "Shift_L", 94 := "less", 52 := "z", 53 := "x", 54 := "c", 55 := "v",
      56 := "b", 57 := "n", 58 := "m",
      59 := "comma", 60 := "period", 61 := "slash", 62 := "Shift_R"]
  /** Bottom row: control, alt, super and space. */
  const Bottom: map<int, string> := map[
      37 := "Control_L", 64 := "Alt_L", 65 := "space", 108 := "Alt_R", 105 := "Control_R",
      133 := "Super_L", 134 := "Super_R"]
  /** Navigation cluster. The literal lists 117 twice; as in a Python dict
      literal, the later entry, Page_Down, is the one kept. */
  const Navigation: map<int, string> := map[
      110 := "Insert", 119 := "Delete",
      115 := "Home", 117 := "End",
      112 := "Page_Up", 117 := "Page_Down",
      111 := "Up", 116 := "Down", 113 := "Left", 114 := "Right"]
  /** Numeric keypad. 87 is listed twice; the later entry, KP_Add, is kept. */
  const Keypad: map<int, string> := map[
      77 := "Num_Lock",
      90 := "KP_0", 87 := "KP_1", 88 := "KP_2", 89 := "KP_3",
      83 := "KP_4", 84 := "KP_5", 85 := "KP_6",
      79 := "KP_7", 80 := "KP_8", 81 := "KP_9",
      82 := "KP_Decimal",
      106 := "KP_Divide", 63 := "KP_Multiply",
      86 := "KP_Subtract", 87 := "KP_Add",
      104 := "KP_Enter"]
  /** Locks. */
  const Locks: map<int, string> := map[78 := "Scroll_Lock"]
  const KeycodeToName: map<int, string> := Row1 + Row2 + Row3 + Row4 + Row5 + Bottom + Navigation + Keypad + Locks

  const KeyPrefix: string := "keyboard.key."
  const Other: string := "keyboard.other"

  /** `_ISO_105_NAMES`. */
  const IsoNames: set<string> := KeycodeToName.Values

  /** One counter per key name, plus the catch-all. */
  function Counters(names: set<string>): set<string> {
    (set n | n in names :: KeyPrefix + n) + {Other}
  }

  /** `METRIC_KEYS`. */
  const MetricKeys: set<string> := Counters(IsoNames)

  /** `+` on maps keeps a key of an earlier group when no later group has it. */
  lemma LaterGroupWins(before: map<int, string>, group: map<int, string>, g1: map<int, string>, g2: map<int, string>, code: int)
    requires code in group && code !in g1 && code !in g2
    ensures code in before + group + g1 + g2 && (before + group + g1 + g2)[code] == group[code]
  {
  }

  lemma PenultimateGroupWins(before: map<int, string>, group: map<int, string>, last: map<int, string>, code: int)
    requires code in group && code !in last
    ensures code in before + group + last && (before + group + last)[code] == group[code]
  {
  }

  /** A name that no group gives is not in the table. */
  lemma UnionValues(a: map<int, string>, b: map<int, string>, v: string)
    requires v !in a.Values && v !in b.Values
    ensures v !in (a + b).Values
  {
  }

  lemma NotAName(v: string)
    requires v !in Row1.Values && v !in Row2.Values && v !in Row3.Values && v !in Row4.Values && v !in Row5.Values
    requires v !in Bottom.Values && v !in Navigation.Values && v !in Keypad.Values && v !in Locks.Values
    ensures v !in IsoNames
  {
    UnionValues(Row1, Row2, v);
    UnionValues(Row1 + Row2, Row3, v);
    UnionValues(Row1 + Row2 + Row3, Row4, v);
    UnionValues(Row1 + Row2 + Row3 + Row4, Row5, v);
    UnionValues(Row1 + Row2 + Row3 + Row4 + Row5, Bottom, v);
    UnionValues(Row1 + Row2 + Row3 + Row4 + Row5 + Bottom, Navigation, v);
    UnionValues(Row1 + Row2 + Row3 + Row4 + Row5 + Bottom + Navigation, Keypad, v);
    UnionValues(Row1 + Row2 + Row3 + Row4 + Row5 + Bottom + Navigation + Keypad, Locks, v);
  }

  // Which of the names "End", "KP_1" and "" each group gives.
  lemma Row1Lacks() ensures "End" !in Row1.Values && "KP_1" !in Row1.Values && "" !in Row1.Values {}
  lemma Row2Lacks() ensures "End" !in Row2.Values && "KP_1" !in Row2.Values && "" !in Row2.Values {}
  lemma Row3Lacks() ensures "End" !in Row3.Values && "KP_1" !in Row3.Values && "" !in Row3.Values {}
  lemma Row4Lacks() ensures "End" !in Row4.Values && "KP_1" !in Row4.Values && "" !in Row4.Values {}
  lemma Row5Lacks() ensures "End" !in Row5.Values && "KP_1" !in Row5.Values && "" !in Row5.Values {}
  lemma BottomLacks() ensures "End" !in Bottom.Values && "KP_1" !in Bottom.Values && "" !in Bottom.Values {}
  lemma NavigationLacks() ensures "End" !in Navigation.Values && "KP_1" !in Navigation.Values && "" !in Navigation.Values {}
  lemma KeypadLacks() ensures "End" !in Keypad.Values && "KP_1" !in Keypad.Values && "" !in Keypad.Values {}
  lemma LocksLacks() ensures "End" !in Locks.Values && "KP_1" !in Locks.Values && "" !in Locks.Values {}

  lemma AllGroupsLack()
    ensures "End" !in IsoNames && "KP_1" !in IsoNames && "" !in IsoNames
  {
    Row1Lacks(); Row2Lacks(); Row3Lacks(); Row4Lacks(); Row5Lacks();
    BottomLacks(); NavigationLacks(); KeypadLacks(); LocksLacks();
    NotAName("End");
    NotAName("KP_1");
    NotAName("");
  }

  lemma Navigation117() ensures 117 in Navigation && Navigation[117] == "Page_Down" && 117 !in Keypad && 117 !in Locks {}

  lemma Keypad87() ensures 87 in Keypad && Keypad[87] == "KP_Add" && 87 !in Locks {}

  lemma Keycode117() ensures 117 in KeycodeToName && KeycodeToName[117] == "Page_Down" {
    Navigation117();
    LaterGroupWins(Row1 + Row2 + Row3 + Row4 + Row5 + Bottom, Navigation, Keypad, Locks, 117);
  }

  lemma Keycode87() ensures 87 in KeycodeToName && KeycodeToName[87] == "KP_Add" {
    Keypad87();
    PenultimateGroupWins(Row1 + Row2 + Row3 + Row4 + Row5 + Bottom + Navigation, Keypad, Locks, 87);
  }

  /** The repeated keycodes of the literal resolve to their later entries:
      117 is Page_Down and 87 is KP_Add, so End and KP_1 are not key names
      at all; and no key name is empty. */
  lemma DuplicateKeycodesLastWins()
    ensures 117 in KeycodeToName && KeycodeToName[117] == "Page_Down"
    ensures 87 in KeycodeToName && KeycodeToName[87] == "KP_Add"
    ensures "End" !in IsoNames && "KP_1" !in IsoNames && "" !in IsoNames
  {
    Keycode117();
    Keycode87();
    AllGroupsLack();
  }

  lemma PrefixCancel(p: string, a: string, b: string)
    requires p + a == p + b
    ensures a == b
  {
    assert a == (p + a)[|p|..];
    assert b == (p + b)[|p|..];
  }

  /** A per-key metric name is never the catch-all. */
  lemma KeyNameIsNotOther(n: string)
    ensures KeyPrefix + n != Other
  {
    if |KeyPrefix + n| == |Other| {
      assert (KeyPrefix + n)[9] == 'k' && Other[9] == 'o';
    }
  }

  /** The counters of a set of names are exactly the prefixed names and the
      catch-all. */
  lemma CountersExactly(names: set<string>, n: string)
    ensures KeyPrefix + n in Counters(names) <==> n in names
    ensures Other in Counters(names)
  {
    KeyNameIsNotOther(n);
    if KeyPrefix + n in Counters(names) {
      var m :| m in names && KeyPrefix + m == KeyPrefix + n;
      PrefixCancel(KeyPrefix, m, n);
    }
  }

  /** The metric names are exactly the prefixed key names and the catch-all. */
  lemma MetricKeysExactly(n: string)
    ensures KeyPrefix + n in MetricKeys <==> n in IsoNames
    ensures Other in MetricKeys
  {
    CountersExactly(IsoNames, n);
  }

  /** There is no counter for End or KP_1: their keycodes were taken over
      by Page_Down and KP_Add. */
  lemma NoEndOrKp1Counter()
    ensures KeyPrefix + "End" !in MetricKeys && KeyPrefix + "KP_1" !in MetricKeys
  {
    AllGroupsLack();
    MetricKeysExactly("End");
    MetricKeysExactly("KP_1");
  }

  /** The counter a key press goes to (lines 83-84) under a keycode table:
      `keyboard.key.<name>` for a keycode with a (non-empty) name, otherwise
      `keyboard.other`. */
  function MetricFor(table: map<int, string>, code: int): string {
    if code in table && table[code] != "" then KeyPrefix + table[code] else Other
  }

  lemma PrefixedNameDeclared(n: string)
    requires n in KeycodeToName.Values
    ensures KeyPrefix + n in MetricKeys
  {
    MetricKeysExactly(n);
  }

  /** The counter a key press goes to under `KEYCODE_TO_NAME`: always one
      of the declared metrics. */
  function KeyMetric(code: int): (r: string)
    ensures r in MetricKeys
  {
    if code in KeycodeToName && KeycodeToName[code] != "" then
      PrefixedNameDeclared(KeycodeToName[code]);
      MetricFor(KeycodeToName, code)
    else
      MetricKeysExactly("");
      MetricFor(KeycodeToName, code)
  }

  /** Under a table without empty names, a mapped keycode counts under its
      own name and only an unmapped one under the catch-all. */
  lemma MetricForChoice(table: map<int, string>, code: int)
    requires "" !in table.Values
    ensures code in table ==> MetricFor(table, code) == KeyPrefix + table[code]
    ensures MetricFor(table, code) == Other <==> code !in table
  {
    if code in table {
      assert table[code] in table.Values;
      KeyNameIsNotOther(table[code]);
    }
  }

  /** The same for `KEYCODE_TO_NAME`, whose names are all non-empty. */
  lemma KeyMetricChoice(code: int)
    ensures code in KeycodeToName ==> KeyMetric(code) == KeyPrefix + KeycodeToName[code]
    ensures KeyMetric(code) == Other <==> code !in KeycodeToName
  {
    AllGroupsLack();
    MetricForChoice(KeycodeToName, code);
  }

  /** The counters the key presses among `events` reach under `table`, in
      the order the callback's loop (lines 78-86) meets them; other events
      reach none. */
  function PressedKeys(table: map<int, string>, events: seq<Event>): (r: seq<string>)
    ensures |r| <= |events|
    decreases |events|
  {
    if events == [] then []
    else if events[0].evType == KeyPress then [MetricFor(table, events[0].detail)] + PressedKeys(table, events[1..])
    else PressedKeys(table, events[1..])
  }

  /** A counter is reached exactly when some key press in the run goes to it. */
  lemma {:induction false} PressedKeysFromPresses(table: map<int, string>, events: seq<Event>, k: string)
    ensures k in Elems(PressedKeys(table, events)) <==>
      exists i :: 0 <= i < |events| && events[i].evType == KeyPress && MetricFor(table, events[i].detail) == k
    decreases |events|
  {
    if events != [] {
      var tail := events[1..];
      PressedKeysFromPresses(table, tail, k);
      if exists i :: 0 <= i < |events| && events[i].evType == KeyPress && MetricFor(table, events[i].detail) == k {
        var i :| 0 <= i < |events| && events[i].evType == KeyPress && MetricFor(table, events[i].detail) == k;
        if i > 0 { assert tail[i - 1] == events[i]; }
      }
      if exists i :: 0 <= i < |tail| && tail[i].evType == KeyPress && MetricFor(table, tail[i].detail) == k {
        var i :| 0 <= i < |tail| && tail[i].evType == KeyPress && MetricFor(table, tail[i].detail) == k;
        assert events[i + 1] == tail[i];
      }
    }
  }

  /** Under `KEYCODE_TO_NAME`, every counter a key press reaches is a
      declared keyboard metric. */
  lemma {:induction false} PressedKeysDeclared(events: seq<Event>)
    ensures Elems(PressedKeys(KeycodeToName, events)) <= MetricKeys
    decreases |events|
  {
    if events != [] {
      PressedKeysDeclared(events[1..]);
      if events[0].evType == KeyPress {
        assert KeyMetric(events[0].detail) in MetricKeys;
      }
    }
  }

  /** `metrics[k] += 1` for each name of `names`, in order. */
  function Tally(m: map<string, Value>, names: seq<string>): (r: map<string, Value>)
    requires CountersReady(m, Elems(names))
    ensures r.Keys == m.Keys
    decreases |names|
  {
    if names == [] then m
    else
      var m' := Bump(m, names[0], 1);
      assert CountersReady(m', Elems(names[1..])) by {
        BumpKeepsCounters(m, Elems(names), names[0], 1);
      }
      Tally(m', names[1..])
  }

  /** Tallying raises each named counter by the number of times it is
      named and leaves every other metric alone. */
  lemma {:induction false} TallyCounts(m: map<string, Value>, names: seq<string>)
    requires CountersReady(m, Elems(names))
    ensures forall k :: k in Elems(names) ==> Tally(m, names)[k] == IntV(AsInt(m[k]) + multiset(names)[k])
    ensures forall k :: k in m && k !in Elems(names) ==> Tally(m, names)[k] == m[k]
    decreases |names|
  {
    if names != [] {
      var h, t := names[0], names[1..];
      assert names == [h] + t;
      var m' := Bump(m, h, 1);
      BumpKeepsCounters(m, Elems(names), h, 1);
      TallyCounts(m', t);
      forall k | k in Elems(names)
        ensures Tally(m, names)[k] == IntV(AsInt(m[k]) + multiset(names)[k])
      {
        assert multiset(names)[k] == multiset([h])[k] + multiset(t)[k];
      }
    }
  }

  /** The first name of a tally is counted first. */
  lemma TallyCons(m: map<string, Value>, k: string, names: seq<string>)
    requires CountersReady(m, Elems([k] + names))
    ensures k in m && IsInstanceInt(m[k])
    ensures CountersReady(Bump(m, k, 1), Elems(names))
    ensures Tally(m, [k] + names) == Tally(Bump(m, k, 1), names)
  {
    assert ([k] + names)[0] == k;
    assert ([k] + names)[1..] == names;
    BumpKeepsCounters(m, Elems([k] + names), k, 1);
  }

  /** The callback's `while data` loop over the parsed events. */
  method HandleKeyEvents(events: seq<Event>, store: DataStore)
    requires CountersReady(store.metrics, Elems(PressedKeys(KeycodeToName, events)))
    modifies store
    ensures store.metrics == Tally(old(store.metrics), PressedKeys(KeycodeToName, events))
  {
    var rest := events;
    while rest != []
      invariant CountersReady(store.metrics, Elems(PressedKeys(KeycodeToName, rest)))
      invariant Tally(old(store.metrics), PressedKeys(KeycodeToName, events)) == Tally(store.metrics, PressedKeys(KeycodeToName, rest))
      decreases |rest|
    {
      var e := rest[0];
      if e.evType == KeyPress {
        var metric := MetricFor(KeycodeToName, e.detail);
        TallyCons(store.metrics, metric, PressedKeys(KeycodeToName, rest[1..]));
        store.Add(metric, 1);
      }
      rest := rest[1..];
    }
  }

  /** Tallying names drawn from `keys` leaves every metric outside `keys` alone. */
  lemma TallyOutside(m: map<string, Value>, names: seq<string>, keys: set<string>)
    requires CountersReady(m, Elems(names)) && Elems(names) <= keys
    ensures forall k :: k in m && k !in keys ==> Tally(m, names)[k] == m[k]
  {
    TallyCounts(m, names);
  }

  /** The keyboard watcher only ever changes its own declared metrics: every
      counter it reaches is declared, and every other metric keeps its value. */
  lemma KeyboardTouchesOwnKeys(m: map<string, Value>, events: seq<Event>)
    requires CountersReady(m, Elems(PressedKeys(KeycodeToName, events)))
    ensures Elems(PressedKeys(KeycodeToName, events)) <= MetricKeys
    ensures forall k :: k in m && k !in MetricKeys ==> Tally(m, PressedKeys(KeycodeToName, events))[k] == m[k]
  {
    PressedKeysDeclared(events);
    TallyOutside(m, PressedKeys(KeycodeToName, events), MetricKeys);
  }
}
