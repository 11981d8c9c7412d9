/** The unified metric defaults the data store builds from its watchers'
    declarations (watchers/__init__.py, DataStore.__init__). */
module Registry {
  import opened Basics
  import opened Values
  import opened Dicts

  /** A watcher's METRIC_KEYS: either an old-style set of names, given here in
      the order the set is iterated in this run, or a dict from name to
      default value. */
  datatype Declaration =
    | KeySet(order: seq<string>)
    | Defaults(entries: seq<(string, Value)>)

  /** The entries a declaration contributes; a set is upgraded to a dict that
      gives every name the default 0. */
  function Upgraded(w: Declaration): seq<(string, Value)> {
    match w
    case KeySet(order) => seq(|order|, i requires 0 <= i < |order| => (order[i], IntV(0)))
    case Defaults(entries) => entries
  }

  /** The names a declaration declares. */
  function Declared(w: Declaration): set<string> {
    match w
    case KeySet(order) => Elems(order)
    case Defaults(entries) => EntryKeys(entries)
  }

  /** The default a declaration gives a name it declares. */
  function DeclaredDefault(w: Declaration, k: string): Value
    requires k in Declared(w)
  {
    match w
    case KeySet(_) => IntV(0)
    case Defaults(entries) =>
      LastValueFound(entries, k);
      LastValue(entries, k).value
  }

  /** Every name declared by any of the watchers. */
  function AllDeclared(ws: seq<Declaration>): set<string> {
    set i, k | 0 <= i < |ws| && k in Declared(ws[i]) :: k
  }

  /** `metric_defaults` after the loop has merged the watchers `ws`, in order. */
  function Merged(ws: seq<Declaration>): (d: Dict<Value>)
    ensures d.Valid()
    decreases |ws|
  {
    if ws == [] then Empty()
    else Update(Merged(ws[..|ws| - 1]), Upgraded(ws[|ws| - 1]))
  }

  /** The loop of the constructor: merge each watcher's declaration into the
      table with `dict.update`. */
  method MergeDefaults(watchers: seq<Declaration>) returns (defaults: Dict<Value>)
    ensures defaults == Merged(watchers)
  {
    defaults := Empty();
    for i := 0 to |watchers|
      invariant defaults == Merged(watchers[..i])
    {
      assert watchers[..i + 1][..i] == watchers[..i];
      var w := watchers[i];
      if w.KeySet? {
        var upgraded := Upgraded(w);
        defaults := Update(defaults, upgraded);
      } else {
        defaults := Update(defaults, w.entries);
      }
    }
    assert watchers[..|watchers|] == watchers;
  }

  /** The upgraded entries have the declared names as keys and end, for
      each declared name, on its declared default. */
  lemma UpgradedLookup(w: Declaration, k: string)
    ensures k in EntryKeys(Upgraded(w)) <==> k in Declared(w)
    ensures k in Declared(w) ==> LastValue(Upgraded(w), k) == Some(DeclaredDefault(w, k))
  {
    var es := Upgraded(w);
    LastValueFound(es, k);
    if w.KeySet? {
      assert EntryKeys(es) == Elems(w.order) by {
        forall x | x in Elems(w.order) ensures x in EntryKeys(es) {
          var i :| 0 <= i < |w.order| && w.order[i] == x;
          assert es[i].0 == x;
        }
      }
      if k in Declared(w) {
        LastValueIsEntry(es, k);
      }
    }
  }

  lemma AllDeclaredSnoc(ws: seq<Declaration>)
    requires ws != []
    ensures AllDeclared(ws) == AllDeclared(ws[..|ws| - 1]) + Declared(ws[|ws| - 1])
  {
    var init := ws[..|ws| - 1];
    forall k | k in AllDeclared(ws) ensures k in AllDeclared(init) + Declared(ws[|ws| - 1]) {
      var i :| 0 <= i < |ws| && k in Declared(ws[i]);
      if i < |ws| - 1 { assert init[i] == ws[i]; }
    }
    forall k | k in AllDeclared(init) ensures k in AllDeclared(ws) {
      var i :| 0 <= i < |init| && k in Declared(init[i]);
      assert ws[i] == init[i];
    }
  }

  /** The merged table names exactly the union of all declared names. */
  lemma {:induction false} MergedKeys(ws: seq<Declaration>)
    ensures Merged(ws).vals.Keys == AllDeclared(ws)
    decreases |ws|
  {
    if ws != [] {
      var init, last := ws[..|ws| - 1], ws[|ws| - 1];
      MergedKeys(init);
      AllDeclaredSnoc(ws);
      forall k ensures k in Merged(ws).vals <==> k in AllDeclared(ws) {
        UpdateLookup(Merged(init), Upgraded(last), k);
        UpgradedLookup(last, k);
      }
    }
  }

  /** On a name collision the later watcher's default wins: a name gets the
      default of the last watcher that declares it. */
  lemma {:induction false} LaterWatcherWins(ws: seq<Declaration>, i: int, k: string)
    requires 0 <= i < |ws| && k in Declared(ws[i])
    requires forall j :: i < j < |ws| ==> k !in Declared(ws[j])
    ensures k in Merged(ws).vals && Merged(ws).vals[k] == DeclaredDefault(ws[i], k)
    decreases |ws|
  {
    var init, last := ws[..|ws| - 1], ws[|ws| - 1];
    UpdateLookup(Merged(init), Upgraded(last), k);
    UpgradedLookup(last, k);
    LastValueFound(Upgraded(last), k);
    if i < |ws| - 1 {
      assert init[i] == ws[i];
      LaterWatcherWins(init, i, k);
    }
  }

  /** If every declaration of the names in `keys` gives an integer default,
      the merged table gives them integer defaults. */
  lemma {:induction false} MergedCounters(ws: seq<Declaration>, keys: set<string>)
    requires keys <= AllDeclared(ws)
    requires forall i, k :: 0 <= i < |ws| && k in keys && k in Declared(ws[i]) ==> DeclaredDefault(ws[i], k).IntV?
    ensures forall k :: k in keys ==> k in Merged(ws).vals && Merged(ws).vals[k].IntV?
    decreases |ws|
  {
    if ws != [] {
      var init, last := ws[..|ws| - 1], ws[|ws| - 1];
      AllDeclaredSnoc(ws);
      var rest := keys - Declared(last);
      forall i, k | 0 <= i < |init| && k in rest && k in Declared(init[i])
        ensures DeclaredDefault(init[i], k).IntV?
      {
        assert init[i] == ws[i];
      }
      MergedCounters(init, rest);
      MergedKeys(init);
      forall k | k in keys ensures k in Merged(ws).vals && Merged(ws).vals[k].IntV? {
        UpdateLookup(Merged(init), Upgraded(last), k);
        UpgradedLookup(last, k);
        LastValueFound(Upgraded(last), k);
      }
    }
  }

  /** Merging more watchers never moves a name already in the table: the
      table's key order is the order in which names were first declared. */
  lemma {:induction false} MergedOrderStable(ws: seq<Declaration>, n: nat)
    requires n <= |ws|
    ensures Merged(ws[..n]).keys <= Merged(ws).keys
    decreases |ws| - n
  {
    if n < |ws| {
      MergedOrderStable(ws, n + 1);
      assert ws[..n + 1][..n] == ws[..n];
    } else {
      assert ws[..n] == ws;
    }
  }

  /** Every watcher's upgraded entries, one watcher after the other. */
  function AllEntries(ws: seq<Declaration>): seq<(string, Value)>
    decreases |ws|
  {
    if ws == [] then [] else AllEntries(ws[..|ws| - 1]) + Upgraded(ws[|ws| - 1])
  }

  /** The merged table lists each name once, at the place of its first
      declaration: watchers in order, and each declaration in its own
      order. This is the column order of the table and of every row. */
  lemma {:induction false} MergedOrder(ws: seq<Declaration>)
    ensures Merged(ws).keys == NewKeys([], AllEntries(ws))
    ensures forall k :: k in Merged(ws).keys ==> FirstIndex(AllEntries(ws), k) < |AllEntries(ws)|
    ensures forall i, j :: 0 <= i < j < |Merged(ws).keys| ==>
      FirstIndex(AllEntries(ws), Merged(ws).keys[i]) < FirstIndex(AllEntries(ws), Merged(ws).keys[j])
    decreases |ws|
  {
    if ws != [] {
      var init, last := ws[..|ws| - 1], ws[|ws| - 1];
      MergedOrder(init);
      NewKeysAppend([], AllEntries(init), Upgraded(last));
      assert [] + NewKeys([], AllEntries(init)) == NewKeys([], AllEntries(init));
    }
    NewKeysOrder([], AllEntries(ws));
  }
}
