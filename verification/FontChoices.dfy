/** A font PUT when several rows share a family name. The lookup by name then returns
    whichever row the database finds first, so the result depends on a choice of one row
    per name. What the result keeps whatever the choice, and exactly when it is safe. */
module FontChoices {
  import opened Wrappers
  import opened Fonts

  /** The row found for each listed name that has one. */
  type Choice = map<string, nat>

  ghost predicate Finds(fonts: map<nat, Font>, pick: Choice, families: seq<PayloadFamily>) {
    forall i :: 0 <= i < |families| ==> FindsName(fonts, pick, families[i].name)
  }

  ghost predicate FindsName(fonts: map<nat, Font>, pick: Choice, name: string) {
    if name in pick then pick[name] in fonts && fonts[pick[name]].values.family == name
    else forall id :: id in fonts ==> fonts[id].values.family != name
  }

  function Found(pick: Choice, name: string): Option<nat> {
    if name in pick then Some(pick[name]) else None
  }

  /** The family loop with these rows found. A row that is not there is not updated. */
  ghost function PutFontsBy(inv: Inventory, p: Payload, n: nat, pick: Choice): Inventory
    requires n <= |p.families|
  {
    if n == 0 then inv
    else
      var mid := PutFontsBy(inv, p, n - 1, pick);
      var found := Found(pick, p.families[n - 1].name);
      if found.Some? && found.value !in mid.fonts then mid
      else PutFontAt(mid, Wanted(inv.sources, p, n - 1), found)
  }

  ghost function MergedBy(inv: Inventory, p: Payload, pick: Choice): Inventory {
    PutFontsBy(PutSources(inv, p.sources), p, |p.families|, pick)
  }

  ghost function PutBy(inv: Inventory, p: Payload, pick: Choice): Inventory {
    Dropped(MergedBy(inv, p, pick), p)
  }

  // ---- the family loop, row by row ----

  predicate Chosen(p: Payload, n: nat, pick: Choice, id: nat)
    requires n <= |p.families|
  {
    exists k :: 0 <= k < n && Found(pick, p.families[k].name) == Some(id)
  }

  /** The values are those that one of the first n families asks for. */
  ghost predicate AsWanted(rows: map<nat, Source>, p: Payload, n: nat, v: FontValues)
    requires n <= |p.families|
  {
    exists k :: 0 <= k < n && v == Wanted(rows, p, k)
  }

  /** Chosen rows hold what the payload wants, the other old rows are untouched, and new
      rows hold what the payload wants. */
  ghost predicate RowByRow(a: Inventory, b: Inventory, p: Payload, n: nat, pick: Choice)
    requires n <= |p.families|
  {
    && (forall k :: 0 <= k < n ==> Placed(a, b, p, k, pick))
    && (forall id :: id in a.fonts && !Chosen(p, n, pick, id) ==> id in b.fonts && b.fonts[id] == a.fonts[id])
    && (forall id :: id in b.fonts && id !in a.fonts ==> AsWanted(a.sources, p, n, b.fonts[id].values))
  }

  ghost predicate Placed(a: Inventory, b: Inventory, p: Payload, k: nat, pick: Choice)
    requires k < |p.families|
  {
    var found := Found(pick, p.families[k].name);
    if found.None? then ShowsFont(b, Wanted(a.sources, p, k))
    else found.value in b.fonts && b.fonts[found.value].values == Wanted(a.sources, p, k)
  }

  /** The next family's row is there, and updating it leaves the others alone. */
  lemma NextPlaced(a: Inventory, mid: Inventory, p: Payload, n: nat, pick: Choice, k: nat)
    requires k <= n < |p.families| && DistinctFamilies(p.families) && Finds(a.fonts, pick, p.families)
    requires StoreInv(mid) && FontsGrow(a.fonts, mid.fonts, NamesOf(p.families[..n]))
    requires k < n ==> Placed(a, mid, p, k, pick)
    ensures var found := Found(pick, p.families[n].name);
      && (found.Some? ==> found.value in mid.fonts && mid.fonts[found.value].values.family == p.families[n].name)
      && Placed(a, PutFontAt(mid, Wanted(a.sources, p, n), found), p, k, pick)
  {
    hide NamesOf;
    var name := p.families[n].name;
    assert FindsName(a.fonts, pick, name) && FindsName(a.fonts, pick, p.families[k].name);
    var found, v, w := Found(pick, name), Wanted(a.sources, p, n), Wanted(a.sources, p, k);
    hide Wanted;
    var b := PutFontAt(mid, v, found);
    if Found(pick, p.families[k].name).None? {
      if k < n {
        var id :| id in mid.fonts && mid.fonts[id].values == w;
        assert id in b.fonts && b.fonts[id].values == w;
      } else {
        assert b.fonts[mid.nextFont].values == v;
      }
    }
  }

  lemma NextUntouched(a: Inventory, mid: Inventory, p: Payload, n: nat, pick: Choice, v: FontValues, id: nat)
    requires n < |p.families| && StoreInv(mid) && RowByRow(a, mid, p, n, pick)
    requires id in a.fonts && !Chosen(p, n + 1, pick, id)
    requires var found := Found(pick, p.families[n].name); found.Some? ==> found.value in mid.fonts
    ensures var b := PutFontAt(mid, v, Found(pick, p.families[n].name)); id in b.fonts && b.fonts[id] == a.fonts[id]
  {
    hide Placed;
    assert !Chosen(p, n, pick, id);
  }

  lemma NextNew(a: Inventory, mid: Inventory, p: Payload, n: nat, pick: Choice, id: nat)
    requires n < |p.families| && RowByRow(a, mid, p, n, pick)
    requires var found := Found(pick, p.families[n].name); found.Some? ==> found.value in mid.fonts && found.value in a.fonts
    requires id in PutFontAt(mid, Wanted(a.sources, p, n), Found(pick, p.families[n].name)).fonts && id !in a.fonts
    ensures AsWanted(a.sources, p, n + 1,
      PutFontAt(mid, Wanted(a.sources, p, n), Found(pick, p.families[n].name)).fonts[id].values)
  {
    hide Placed, Wanted;
    if id in mid.fonts {
      assert AsWanted(a.sources, p, n, mid.fonts[id].values);
    }
  }

  lemma RowByRowStep(a: Inventory, mid: Inventory, p: Payload, n: nat, pick: Choice)
    requires n < |p.families| && DistinctFamilies(p.families) && Finds(a.fonts, pick, p.families)
    requires StoreInv(mid) && FontsGrow(a.fonts, mid.fonts, NamesOf(p.families[..n]))
    requires RowByRow(a, mid, p, n, pick)
    ensures var found := Found(pick, p.families[n].name);
      && (found.Some? ==> found.value in mid.fonts && mid.fonts[found.value].values.family == p.families[n].name)
      && RowByRow(a, PutFontAt(mid, Wanted(a.sources, p, n), found), p, n + 1, pick)
  {
    assert FindsName(a.fonts, pick, p.families[n].name);
    hide NamesOf, Wanted, Placed, StoreInv, Finds, FontsGrow, PutFontAt, AsWanted, Chosen;
    NextPlaced(a, mid, p, n, pick, n);
    var found := Found(pick, p.families[n].name);
    var v := Wanted(a.sources, p, n);
    var b := PutFontAt(mid, v, found);
    forall k | 0 <= k < n + 1 ensures Placed(a, b, p, k, pick) {
      NextPlaced(a, mid, p, n, pick, k);
    }
    forall id | id in a.fonts && !Chosen(p, n + 1, pick, id) ensures id in b.fonts && b.fonts[id] == a.fonts[id] {
      NextUntouched(a, mid, p, n, pick, v, id);
    }
    forall id | id in b.fonts && id !in a.fonts ensures AsWanted(a.sources, p, n + 1, b.fonts[id].values) {
      NextNew(a, mid, p, n, pick, id);
    }
  }

  lemma FontsByStep(a: Inventory, mid: Inventory, p: Payload, n: nat, pick: Choice)
    requires n < |p.families| && DistinctFamilies(p.families) && Finds(a.fonts, pick, p.families)
    requires StoreInv(mid) && FontsGrow(a.fonts, mid.fonts, NamesOf(p.families[..n])) && OnlyFonts(a, mid)
    requires RowByRow(a, mid, p, n, pick)
    ensures var found := Found(pick, p.families[n].name);
      && (found.Some? ==> found.value in mid.fonts)
      && var b := PutFontAt(mid, Wanted(a.sources, p, n), found);
      && StoreInv(b) && FontsGrow(a.fonts, b.fonts, NamesOf(p.families[..n + 1])) && OnlyFonts(a, b)
      && RowByRow(a, b, p, n + 1, pick)
  {
    hide StoreInv, FontsGrow, NamesOf, Finds, RowByRow, Wanted, DistinctFamilies, PutFontAt, Found;
    RowByRowStep(a, mid, p, n, pick);
    var v, found := Wanted(a.sources, p, n), Found(pick, p.families[n].name);
    PutFontAtKeeps(mid, v, found);
    FontsGrowTwice(a.fonts, mid.fonts, PutFontAt(mid, v, found).fonts, NamesOf(p.families[..n]), {v.family});
    NamesOfNext(p.families, n);
  }

  lemma NoFontsBy(a: Inventory, p: Payload, pick: Choice)
    requires StoreInv(a)
    ensures FontsGrow(a.fonts, a.fonts, NamesOf(p.families[..0])) && OnlyFonts(a, a) && RowByRow(a, a, p, 0, pick)
  {
  }

  lemma {:induction false} FontsBy(a: Inventory, p: Payload, n: nat, pick: Choice)
    requires StoreInv(a) && n <= |p.families| && DistinctFamilies(p.families) && Finds(a.fonts, pick, p.families)
    ensures var b := PutFontsBy(a, p, n, pick);
      && StoreInv(b) && FontsGrow(a.fonts, b.fonts, NamesOf(p.families[..n])) && OnlyFonts(a, b)
      && RowByRow(a, b, p, n, pick)
  {
    hide StoreInv, FontsGrow, NamesOf, Finds, RowByRow, Wanted, DistinctFamilies, PutFontAt, Found, OnlyFonts;
    if n > 0 {
      FontsBy(a, p, n - 1, pick);
      FontsByStep(a, PutFontsBy(a, p, n - 1, pick), p, n - 1, pick);
    } else {
      NoFontsBy(a, p, pick);
    }
  }

  // ---- the choice that a run of the loop makes ----

  /** The rows found for the first n families. */
  ghost predicate FindsFirst(fonts: map<nat, Font>, pick: Choice, families: seq<PayloadFamily>, n: nat)
    requires n <= |families|
  {
    && (forall i :: 0 <= i < n ==> FindsName(fonts, pick, families[i].name))
    && pick.Keys <= NamesOf(families[..n])
  }

  function Extend(pick: Choice, name: string, found: Option<nat>): Choice {
    if found.Some? then pick[name := found.value] else pick
  }

  lemma {:induction false} SameFirst(inv: Inventory, p: Payload, n: nat, pick: Choice, other: Choice)
    requires n <= |p.families|
    requires forall k :: 0 <= k < n ==> Found(pick, p.families[k].name) == Found(other, p.families[k].name)
    ensures PutFontsBy(inv, p, n, pick) == PutFontsBy(inv, p, n, other)
  {
    if n > 0 {
      SameFirst(inv, p, n - 1, pick, other);
    }
  }

  lemma NotYetListed(families: seq<PayloadFamily>, n: nat)
    requires n < |families| && DistinctFamilies(families)
    ensures families[n].name !in NamesOf(families[..n])
  {
  }

  lemma NextFindsName(a: map<nat, Font>, mid: map<nat, Font>, before: set<string>, pick: Choice, name: string, found: Option<nat>)
    requires FontsGrow(a, mid, before) && name !in before && pick.Keys <= before
    requires found.Some? ==> found.value in mid && mid[found.value].values.family == name
    requires found.None? ==> forall id :: id in mid ==> mid[id].values.family != name
    ensures FindsName(a, Extend(pick, name, found), name) && Found(Extend(pick, name, found), name) == found
  {
  }

  lemma NextFound(a: map<nat, Font>, mid: map<nat, Font>, families: seq<PayloadFamily>, n: nat, pick: Choice, found: Option<nat>)
    requires n < |families| && DistinctFamilies(families) && FindsFirst(a, pick, families, n)
    requires FontsGrow(a, mid, NamesOf(families[..n]))
    requires found.Some? ==> found.value in mid && mid[found.value].values.family == families[n].name
    requires found.None? ==> forall id :: id in mid ==> mid[id].values.family != families[n].name
    ensures FindsFirst(a, Extend(pick, families[n].name, found), families, n + 1)
    ensures Found(Extend(pick, families[n].name, found), families[n].name) == found
    ensures forall k :: 0 <= k < n ==>
      Found(pick, families[k].name) == Found(Extend(pick, families[n].name, found), families[k].name)
  {
    NotYetListed(families, n);
    NamesOfNext(families, n);
    NextFindsName(a, mid, NamesOf(families[..n]), pick, families[n].name, found);
    hide NamesOf, FontsGrow;
    forall k | 0 <= k < n
      ensures FindsName(a, Extend(pick, families[n].name, found), families[k].name)
    {
      assert FindsName(a, pick, families[k].name);
    }
  }

  lemma NextChoice(a: Inventory, p: Payload, n: nat, pick: Choice, found: Option<nat>)
    requires n < |p.families| && DistinctFamilies(p.families) && FindsFirst(a.fonts, pick, p.families, n)
    requires var mid := PutFontsBy(a, p, n, pick); var name := p.families[n].name;
      && FontsGrow(a.fonts, mid.fonts, NamesOf(p.families[..n]))
      && (found.Some? ==> found.value in mid.fonts && mid.fonts[found.value].values.family == name)
      && (found.None? ==> forall id :: id in mid.fonts ==> mid.fonts[id].values.family != name)
    ensures var pick' := Extend(pick, p.families[n].name, found);
      && FindsFirst(a.fonts, pick', p.families, n + 1)
      && PutFontsBy(a, p, n + 1, pick') == PutFontAt(PutFontsBy(a, p, n, pick), Wanted(a.sources, p, n), found)
  {
    hide Wanted, FindsFirst, FontsGrow, NamesOf, PutFontAt, DistinctFamilies;
    var pick' := Extend(pick, p.families[n].name, found);
    NextFound(a.fonts, PutFontsBy(a, p, n, pick).fonts, p.families, n, pick, found);
    SameFirst(a, p, n, pick, pick');
  }

  lemma FindsAll(fonts: map<nat, Font>, pick: Choice, families: seq<PayloadFamily>)
    requires FindsFirst(fonts, pick, families, |families|)
    ensures Finds(fonts, pick, families)
  {
  }

  // ---- the whole PUT, row by row ----

  /** The sources a PUT leaves, which no choice affects. */
  ghost function SourcesLeft(inv: Inventory, p: Payload): map<nat, Source> {
    DropSources(PutSources(inv, p.sources), KeysOf(p.sources)).sources
  }

  ghost predicate Good(inv: Inventory, p: Payload) {
    StoreInv(inv) && DistinctKeys(p.sources) && DistinctFamilies(p.families)
  }

  lemma WantedLeft(inv: Inventory, p: Payload, i: nat)
    requires Good(inv, p) && i < |p.families|
    ensures Wanted(SourcesLeft(inv, p), p, i) == Wanted(PutSources(inv, p.sources).sources, p, i)
  {
    PutSourcesKeep(inv, p.sources);
    hide IdOfKey, PutSources;
    var f := p.families[i];
    if f.kind.Cdn? && f.sourceKey in KeysOf(p.sources) {
      SameId(PutSources(inv, p.sources).sources, SourcesLeft(inv, p), f.sourceKey);
    }
  }

  /** Chosen rows hold what the payload wants; listed rows that are not chosen are
      untouched; other rows hold what the payload wants; nothing unlisted is left. */
  ghost predicate Outcome(inv: Inventory, b: Inventory, p: Payload, pick: Choice) {
    var rows := SourcesLeft(inv, p);
    && b.sources == rows && StoreInv(b) && Untouched(inv, b, p, pick)
    && (forall i :: 0 <= i < |p.families| ==> Settles(b, p, pick, i, Wanted(rows, p, i)))
    && (forall id :: id in b.fonts && id !in inv.fonts ==> AsWanted(rows, p, |p.families|, b.fonts[id].values))
    && (forall id :: id in b.fonts ==> b.fonts[id].values.family in NamesOf(p.families))
  }

  ghost predicate Untouched(inv: Inventory, b: Inventory, p: Payload, pick: Choice) {
    forall id | id in inv.fonts && inv.fonts[id].values.family in NamesOf(p.families)
      && !Chosen(p, |p.families|, pick, id) :: id in b.fonts && b.fonts[id] == inv.fonts[id]
  }

  ghost predicate Settles(b: Inventory, p: Payload, pick: Choice, i: nat, v: FontValues)
    requires i < |p.families|
  {
    var found := Found(pick, p.families[i].name);
    if found.None? then ShowsFont(b, v) else found.value in b.fonts && b.fonts[found.value].values == v
  }

  lemma SettlesDropped(b: Inventory, p: Payload, pick: Choice, i: nat, v: FontValues)
    requires i < |p.families| && Settles(b, p, pick, i, v) && v.family in NamesOf(p.families)
    ensures Settles(Dropped(b, p), p, pick, i, v)
  {
    hide NamesOf;
    if Found(pick, p.families[i].name).None? {
      var id :| id in b.fonts && b.fonts[id].values == v;
      assert id in Dropped(b, p).fonts && Dropped(b, p).fonts[id].values == v;
    }
  }

  lemma NewLeft(inv: Inventory, p: Payload, v: FontValues)
    requires Good(inv, p) && AsWanted(PutSources(inv, p.sources).sources, p, |p.families|, v)
    ensures AsWanted(SourcesLeft(inv, p), p, |p.families|, v)
  {
    hide Wanted, SourcesLeft, PutSources, Good;
    var k :| 0 <= k < |p.families| && v == Wanted(PutSources(inv, p.sources).sources, p, k);
    WantedLeft(inv, p, k);
  }

  lemma UntouchedLeft(a: Inventory, b: Inventory, p: Payload, pick: Choice)
    requires RowByRow(a, b, p, |p.families|, pick)
    ensures Untouched(a, Dropped(b, p), p, pick)
    ensures forall id :: id in Dropped(b, p).fonts ==> Dropped(b, p).fonts[id].values.family in NamesOf(p.families)
  {
    hide Placed, AsWanted, Chosen, NamesOf, KeysOf;
  }

  lemma NewRowsLeft(inv: Inventory, b: Inventory, p: Payload, pick: Choice)
    requires Good(inv, p) && RowByRow(PutSources(inv, p.sources), b, p, |p.families|, pick)
    requires PutSources(inv, p.sources).fonts == inv.fonts
    ensures forall id :: id in Dropped(b, p).fonts && id !in inv.fonts ==>
      AsWanted(SourcesLeft(inv, p), p, |p.families|, Dropped(b, p).fonts[id].values)
  {
    hide Placed, AsWanted, Chosen, NamesOf, KeysOf, PutSources, Good, SourcesLeft;
    forall id | id in Dropped(b, p).fonts && id !in inv.fonts
      ensures AsWanted(SourcesLeft(inv, p), p, |p.families|, Dropped(b, p).fonts[id].values)
    {
      NewLeft(inv, p, b.fonts[id].values);
    }
  }

  lemma SettledLeft(inv: Inventory, b: Inventory, p: Payload, pick: Choice, i: nat)
    requires Good(inv, p) && i < |p.families| && RowByRow(PutSources(inv, p.sources), b, p, |p.families|, pick)
    ensures Settles(Dropped(b, p), p, pick, i, Wanted(SourcesLeft(inv, p), p, i))
  {
    hide Wanted, AsWanted, Chosen, NamesOf, KeysOf, PutSources, Good, SourcesLeft, Dropped;
    WantedLeft(inv, p, i);
    assert Placed(PutSources(inv, p.sources), b, p, i, pick);
    ListedName(p.families, i);
    SettlesDropped(b, p, pick, i, Wanted(PutSources(inv, p.sources).sources, p, i));
  }

  lemma PutByOutcome(inv: Inventory, p: Payload, pick: Choice)
    requires Good(inv, p) && Finds(inv.fonts, pick, p.families)
    ensures Outcome(inv, PutBy(inv, p, pick), p, pick)
    ensures HoldsFoundRows(inv, PutBy(inv, p, pick), p, pick)
  {
    hide HoldsFoundRows, StoreInv, Finds, FontsGrow, SourcesGrow, Wanted, PutSources, PutFontsBy, AsWanted, Chosen, NamesOf, KeysOf, ShowsSource,
      RowByRow, Settles, Untouched;
    var a, b := PutSources(inv, p.sources), MergedBy(inv, p, pick);
    PutSourcesKeep(inv, p.sources);
    FontsBy(a, p, |p.families|, pick);
    DropsKeep(b, NamesOf(p.families), KeysOf(p.sources));
    UntouchedLeft(a, b, p, pick);
    SameFonts(a, inv, PutBy(inv, p, pick), p, pick);
    NewRowsLeft(inv, b, p, pick);
    forall i | 0 <= i < |p.families| ensures Settles(Dropped(b, p), p, pick, i, Wanted(SourcesLeft(inv, p), p, i)) {
      SettledLeft(inv, b, p, pick, i);
    }
    forall s | s in p.sources ensures ShowsSource(PutBy(inv, p, pick), s) {
      SameSourcesShow(a, b, s);
      DropsShowSource(b, p, s);
    }
    OutcomeHolds(inv, PutBy(inv, p, pick), p, pick);
  }

  /** Field by field, whichever rows were found: each of them holds its family of the
      payload, each new row holds one, and each family has a row. */
  ghost predicate HoldsFoundRows(inv: Inventory, b: Inventory, p: Payload, pick: Choice) {
    && (forall i :: 0 <= i < |p.families| ==> HasRow(b, p, i))
    && (forall i :: 0 <= i < |p.families| && p.families[i].name in pick ==>
          pick[p.families[i].name] in b.fonts
          && HoldsFamily(b.fonts[pick[p.families[i].name]].values, b.sources, p, i))
    && (forall id :: id in b.fonts && id !in inv.fonts ==>
          exists i :: 0 <= i < |p.families| && HoldsFamily(b.fonts[id].values, b.sources, p, i))
  }

  lemma OutcomeHolds(inv: Inventory, b: Inventory, p: Payload, pick: Choice)
    requires Outcome(inv, b, p, pick) && forall s :: s in p.sources ==> ShowsSource(b, s)
    ensures HoldsFoundRows(inv, b, p, pick)
  {
    hide StoreInv, Untouched, NamesOf, HoldsFamily, Wanted, SourcesLeft;
    forall i | 0 <= i < |p.families|
      ensures HasRow(b, p, i)
      ensures var name := p.families[i].name; name in pick ==>
        pick[name] in b.fonts && HoldsFamily(b.fonts[pick[name]].values, b.sources, p, i)
    {
      WantedHolds(b.sources, p, i);
      assert Settles(b, p, pick, i, Wanted(b.sources, p, i));
    }
    forall id | id in b.fonts && id !in inv.fonts
      ensures exists i :: 0 <= i < |p.families| && HoldsFamily(b.fonts[id].values, b.sources, p, i)
    {
      var k :| 0 <= k < |p.families| && b.fonts[id].values == Wanted(b.sources, p, k);
      WantedHolds(b.sources, p, k);
    }
  }

  lemma SameFonts(a: Inventory, inv: Inventory, b: Inventory, p: Payload, pick: Choice)
    requires a.fonts == inv.fonts && Untouched(a, b, p, pick)
    ensures Untouched(inv, b, p, pick)
  {
  }

  lemma ListedName(families: seq<PayloadFamily>, i: nat)
    requires i < |families|
    ensures families[i].name in NamesOf(families)
  {
    assert families[i] in families;
  }

  // ---- doubled names ----

  /** Another row has the same listed name. */
  ghost predicate Doubled(fonts: map<nat, Font>, p: Payload, id: nat)
    requires id in fonts
  {
    && fonts[id].values.family in NamesOf(p.families)
    && exists other :: other in fonts && other != id && fonts[other].values.family == fonts[id].values.family
  }

  lemma Choosing(fonts: map<nat, Font>, families: seq<PayloadFamily>, row: nat) returns (pick: Choice)
    requires row in fonts && fonts[row].values.family in NamesOf(families)
    ensures Finds(fonts, pick, families) && Found(pick, fonts[row].values.family) == Some(row)
  {
    hide IdOfFamily, NamesOf;
    var name := fonts[row].values.family;
    pick := map n | n in NamesOf(families) && IdOfFamily(fonts, n).Some?
      :: if n == name then row else IdOfFamily(fonts, n).value;
    assert IdOfFamily(fonts, name).Some?;
    forall i | 0 <= i < |families| ensures FindsName(fonts, pick, families[i].name) {
      ListedName(families, i);
    }
  }

  lemma NotChosen(fonts: map<nat, Font>, p: Payload, pick: Choice, id: nat)
    requires Finds(fonts, pick, p.families) && id in fonts && Found(pick, fonts[id].values.family) != Some(id)
    ensures !Chosen(p, |p.families|, pick, id)
  {
    forall k | 0 <= k < |p.families| ensures Found(pick, p.families[k].name) != Some(id) {
      assert FindsName(fonts, pick, p.families[k].name);
    }
  }

  /** A row that is listed and not chosen has a double that was. */
  lemma UnchosenIsDoubled(fonts: map<nat, Font>, p: Payload, pick: Choice, id: nat)
    requires Finds(fonts, pick, p.families) && id in fonts && fonts[id].values.family in NamesOf(p.families)
    requires !Chosen(p, |p.families|, pick, id)
    ensures Doubled(fonts, p, id)
  {
    var f :| f in p.families && f.name == fonts[id].values.family;
    var k :| 0 <= k < |p.families| && p.families[k] == f;
    assert FindsName(fonts, pick, p.families[k].name);
    assert Found(pick, p.families[k].name) != Some(id);
  }

  /** Every row of the result was doubled and not chosen, or holds what the payload wants. */
  lemma EveryRow(inv: Inventory, b: Inventory, p: Payload, pick: Choice, id: nat)
    requires Outcome(inv, b, p, pick) && Finds(inv.fonts, pick, p.families) && id in b.fonts
    requires forall i :: i in inv.fonts && i in b.fonts ==> inv.fonts[i].values.family == b.fonts[i].values.family
    ensures (id in inv.fonts && Doubled(inv.fonts, p, id) && b.fonts[id] == inv.fonts[id])
      || AsWanted(SourcesLeft(inv, p), p, |p.families|, b.fonts[id].values)
  {
    hide StoreInv, Wanted, NamesOf, SourcesLeft, Finds, Doubled;
    if id in inv.fonts {
      if Chosen(p, |p.families|, pick, id) {
        var k :| 0 <= k < |p.families| && Found(pick, p.families[k].name) == Some(id);
        assert Settles(b, p, pick, k, Wanted(SourcesLeft(inv, p), p, k));
      } else {
        UnchosenIsDoubled(inv.fonts, p, pick, id);
      }
    }
  }

  lemma FamiliesStay(inv: Inventory, p: Payload, pick: Choice)
    requires Good(inv, p) && Finds(inv.fonts, pick, p.families)
    ensures var b := PutBy(inv, p, pick);
      forall i :: i in inv.fonts && i in b.fonts ==> inv.fonts[i].values.family == b.fonts[i].values.family
  {
    hide StoreInv, Finds, SourcesGrow, PutSources, PutFontsBy, NamesOf, KeysOf, ShowsSource, RowByRow;
    PutSourcesKeep(inv, p.sources);
    FontsBy(PutSources(inv, p.sources), p, |p.families|, pick);
  }

  // ---- source ids ----

  ghost predicate NoneDangles(inv: Inventory) {
    forall id :: id in inv.fonts ==> Reaches(inv.fonts[id], inv.sources)
  }

  predicate Reaches(font: Font, sources: map<nat, Source>) {
    font.values.sourceId.Some? ==> font.values.sourceId.value in sources
  }

  lemma WantedReaches(rows: map<nat, Source>, p: Payload, font: Font)
    requires AsWanted(rows, p, |p.families|, font.values)
    ensures Reaches(font, rows)
  {
    hide IdOfKey;
  }

  /** Whichever rows are found, no source id is left dangling; if and only if each row with
      a doubled listed name refers to no source or to one that stays. */
  lemma DanglesExactly(inv: Inventory, p: Payload)
    requires Good(inv, p)
    ensures (forall pick :: Finds(inv.fonts, pick, p.families) ==> NoneDangles(PutBy(inv, p, pick)))
      <==> (forall id :: id in inv.fonts && Doubled(inv.fonts, p, id) ==> Reaches(inv.fonts[id], SourcesLeft(inv, p)))
  {
    hide Good, Finds, PutBy, SourcesLeft, Doubled, Reaches;
    if forall pick :: Finds(inv.fonts, pick, p.families) ==> NoneDangles(PutBy(inv, p, pick)) {
      forall id | id in inv.fonts && Doubled(inv.fonts, p, id) ensures Reaches(inv.fonts[id], SourcesLeft(inv, p)) {
        var pick := PassOver(inv, p, id);
        assert NoneDangles(PutBy(inv, p, pick));
      }
    }
    if forall id :: id in inv.fonts && Doubled(inv.fonts, p, id) ==> Reaches(inv.fonts[id], SourcesLeft(inv, p)) {
      forall pick | Finds(inv.fonts, pick, p.families) ensures NoneDangles(PutBy(inv, p, pick)) {
        NoneLeftDangling(inv, p, pick);
      }
    }
  }

  /** A choice that leaves a doubled row as it is. */
  lemma PassOver(inv: Inventory, p: Payload, id: nat) returns (pick: Choice)
    requires Good(inv, p) && id in inv.fonts && Doubled(inv.fonts, p, id)
    ensures Finds(inv.fonts, pick, p.families)
    ensures var b := PutBy(inv, p, pick); id in b.fonts && b.fonts[id] == inv.fonts[id] && b.sources == SourcesLeft(inv, p)
  {
    hide Good, Finds, PutBy, SourcesLeft, Wanted, StoreInv, NamesOf, AsWanted;
    var other :| other in inv.fonts && other != id && inv.fonts[other].values.family == inv.fonts[id].values.family;
    pick := Choosing(inv.fonts, p.families, other);
    NotChosen(inv.fonts, p, pick, id);
    PutByOutcome(inv, p, pick);
  }

  lemma NoneLeftDangling(inv: Inventory, p: Payload, pick: Choice)
    requires Good(inv, p) && Finds(inv.fonts, pick, p.families)
    requires forall id :: id in inv.fonts && Doubled(inv.fonts, p, id) ==> Reaches(inv.fonts[id], SourcesLeft(inv, p))
    ensures NoneDangles(PutBy(inv, p, pick))
  {
    hide Good, Finds, PutBy, SourcesLeft, Wanted, StoreInv, NamesOf, AsWanted, Doubled, Reaches;
    var b := PutBy(inv, p, pick);
    PutByOutcome(inv, p, pick);
    FamiliesStay(inv, p, pick);
    forall id | id in b.fonts ensures Reaches(b.fonts[id], b.sources) {
      EveryRow(inv, b, p, pick, id);
      if AsWanted(SourcesLeft(inv, p), p, |p.families|, b.fonts[id].values) {
        WantedReaches(SourcesLeft(inv, p), p, b.fonts[id]);
      }
    }
  }

  // ---- repeating it ----

  lemma HoldsWanted(font: Font, rows: map<nat, Source>, p: Payload, i: nat)
    requires DistinctFamilies(p.families) && i < |p.families| && AsWanted(rows, p, |p.families|, font.values)
    requires font.values.family == p.families[i].name
    ensures font.values == Wanted(rows, p, i)
  {
  }

  /** The first PUT leaves the sources settled. */
  lemma SourcesLeftSettled(inv: Inventory, p: Payload, pick: Choice)
    requires Good(inv, p) && Finds(inv.fonts, pick, p.families)
    ensures var b := PutBy(inv, p, pick);
      StoreInv(b) && b.sources == SourcesLeft(inv, p) && PutSources(b, p.sources) == b
    ensures forall id :: id in PutBy(inv, p, pick).sources ==>
      PutBy(inv, p, pick).sources[id].values.key in KeysOf(p.sources)
  {
    var a, b := PutSources(inv, p.sources), PutBy(inv, p, pick);
    hide StoreInv, Finds, SourcesGrow, FontsGrow, PutSources, PutFontsBy, ShowsSource, RowByRow, KeysOf, NamesOf, Untouched, Settles, Wanted, AsWanted;
    PutByOutcome(inv, p, pick);
    PutSourcesKeep(inv, p.sources);
    FontsBy(a, p, |p.families|, pick);
    forall s | s in p.sources ensures ShowsSource(b, s) {
      SameSourcesShow(a, MergedBy(inv, p, pick), s);
      DropsShowSource(MergedBy(inv, p, pick), p, s);
    }
    SourcesSettled(b, p.sources);
  }

  lemma {:induction false} FontsSettledBy(inv: Inventory, p: Payload, n: nat, pick: Choice)
    requires n <= |p.families|
    requires forall i :: 0 <= i < |p.families| ==> Settled(inv, p, pick, i)
    ensures PutFontsBy(inv, p, n, pick) == inv
  {
    hide Wanted;
    if n > 0 {
      FontsSettledBy(inv, p, n - 1, pick);
      assert Settled(inv, p, pick, n - 1);
      var id := pick[p.families[n - 1].name];
      assert inv.fonts[id := inv.fonts[id]] == inv.fonts;
    }
  }

  /** The row found for the i-th family is there and holds its values. */
  ghost predicate Settled(inv: Inventory, p: Payload, pick: Choice, i: nat)
    requires i < |p.families|
  {
    var found := Found(pick, p.families[i].name);
    found.Some? && found.value in inv.fonts && inv.fonts[found.value].values == Wanted(inv.sources, p, i)
  }

  /** After a PUT every listed name has a row. */
  lemma NameHasRow(inv: Inventory, b: Inventory, p: Payload, pick: Choice, again: Choice, i: nat)
    requires Outcome(inv, b, p, pick) && Finds(b.fonts, again, p.families) && i < |p.families|
    ensures FindsName(b.fonts, again, p.families[i].name) && p.families[i].name in again
  {
    hide StoreInv, Untouched, AsWanted, NamesOf, SourcesLeft;
    var v := Wanted(SourcesLeft(inv, p), p, i);
    assert v.family == p.families[i].name;
    hide Wanted;
    assert Settles(b, p, pick, i, v);
    assert FindsName(b.fonts, again, p.families[i].name);
  }

  ghost predicate DoublesHold(inv: Inventory, p: Payload) {
    forall id :: id in inv.fonts && Doubled(inv.fonts, p, id) ==> AsWanted(SourcesLeft(inv, p), p, |p.families|, inv.fonts[id].values)
  }

  /** A second PUT changes nothing, whichever rows the first and the second find. */
  ghost predicate RepeatChangesNothing(inv: Inventory, p: Payload) {
    forall pick, again | Finds(inv.fonts, pick, p.families) && Finds(PutBy(inv, p, pick).fonts, again, p.families)
      :: PutBy(PutBy(inv, p, pick), p, again) == PutBy(inv, p, pick)
  }

  lemma RepeatSettles(inv: Inventory, p: Payload, pick: Choice, again: Choice)
    requires Good(inv, p) && Finds(inv.fonts, pick, p.families)
    requires Finds(PutBy(inv, p, pick).fonts, again, p.families) && DoublesHold(inv, p)
    ensures PutBy(PutBy(inv, p, pick), p, again) == PutBy(inv, p, pick)
  {
    var b := PutBy(inv, p, pick);
    SourcesLeftSettled(inv, p, pick);
    PutByOutcome(inv, p, pick);
    FamiliesStay(inv, p, pick);
    assert DistinctFamilies(p.families);
    NothingToDrop(b, p);
    hide Good, Finds, PutBy, SourcesLeft, Wanted, StoreInv, NamesOf, KeysOf, Doubled, DistinctFamilies, PutSources, PutFontsBy, Dropped,
      Settles, Untouched, AsWanted;
    forall i | 0 <= i < |p.families| ensures Settled(b, p, again, i) {
      NameHasRow(inv, b, p, pick, again, i);
      var id := again[p.families[i].name];
      EveryRow(inv, b, p, pick, id);
      HoldsWanted(b.fonts[id], b.sources, p, i);
    }
    FontsSettledBy(b, p, |p.families|, again);
    PutByUnfold(b, p, again);
  }

  lemma PutByUnfold(b: Inventory, p: Payload, again: Choice)
    requires PutSources(b, p.sources) == b
    ensures PutBy(b, p, again) == Dropped(PutFontsBy(b, p, |p.families|, again), p)
  {
  }

  /** A doubled row that was passed over and is found the second time changes unless it
      held the wanted values before. */
  lemma RepeatNeeds(inv: Inventory, p: Payload, id: nat)
    requires Good(inv, p) && id in inv.fonts && Doubled(inv.fonts, p, id)
    requires RepeatChangesNothing(inv, p)
    ensures AsWanted(SourcesLeft(inv, p), p, |p.families|, inv.fonts[id].values)
  {
    var pick := PassOver(inv, p, id);
    var b := PutBy(inv, p, pick);
    SourcesLeftSettled(inv, p, pick);
    var name := inv.fonts[id].values.family;
    assert name in NamesOf(p.families);
    var again := Choosing(b.fonts, p.families, id);
    PutByOutcome(b, p, again);
    var i :| 0 <= i < |p.families| && p.families[i].name == name;
    hide Good, Finds, PutBy, Wanted, StoreInv, NamesOf, KeysOf, Doubled, DistinctFamilies, PutSources, PutFontsBy, Dropped, Untouched;
    assert PutBy(b, p, again) == b;
    assert Settles(b, p, again, i, Wanted(SourcesLeft(b, p), p, i));
  }

  /** Whichever rows are found, repeating a PUT changes nothing; if and only if each row
      with a doubled listed name already held what the payload wants. */
  lemma RepeatsExactly(inv: Inventory, p: Payload)
    requires Good(inv, p)
    ensures RepeatChangesNothing(inv, p) <==> DoublesHold(inv, p)
  {
    hide Good, Finds, PutBy, SourcesLeft, AsWanted, Doubled;
    if RepeatChangesNothing(inv, p) {
      forall id | id in inv.fonts && Doubled(inv.fonts, p, id) ensures AsWanted(SourcesLeft(inv, p), p, |p.families|, inv.fonts[id].values) {
        RepeatNeeds(inv, p, id);
      }
    }
    if DoublesHold(inv, p) {
      forall pick, again | Finds(inv.fonts, pick, p.families) && Finds(PutBy(inv, p, pick).fonts, again, p.families)
        ensures PutBy(PutBy(inv, p, pick), p, again) == PutBy(inv, p, pick)
      {
        RepeatSettles(inv, p, pick, again);
      }
    }
  }
}
