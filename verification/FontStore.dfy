/** The font tables as an object that the handler updates row by row, and the handler:
    validation loops, reconcile loops, then the deletions. */
module FontStore {
  import opened Wrappers
  import opened Fonts
  import opened FontChoices

  class SiteFonts {
    var sources: map<nat, Source>
    var fonts: map<nat, Font>
    var faces: map<nat, Face>
    var nextSource: nat
    var nextFont: nat

    function View(): Inventory reads this {
      Inventory(sources, fonts, faces, nextSource, nextFont)
    }

    /** Some row with this key, if there is one. */
    method GetSourceByKey(key: string) returns (found: Option<nat>)
      ensures found.Some? ==> found.value in sources && sources[found.value].values.key == key
      ensures found.None? ==> forall id :: id in sources ==> sources[id].values.key != key
    {
      if id :| id in sources && sources[id].values.key == key { return Some(id); }
      return None;
    }

    /** Some row of this family, if there is one. */
    method GetFontByFamily(family: string) returns (found: Option<nat>)
      ensures found.Some? ==> found.value in fonts && fonts[found.value].values.family == family
      ensures found.None? ==> forall id :: id in fonts ==> fonts[id].values.family != family
    {
      if id :| id in fonts && fonts[id].values.family == family { return Some(id); }
      return None;
    }

    method AddSource(s: PayloadSource) returns (id: nat)
      modifies this`sources, this`nextSource
      ensures id == old(nextSource) && nextSource == old(nextSource) + 1
      ensures sources == old(sources)[id := Source(s, true)]
    {
      id := nextSource;
      sources := sources[id := Source(s, true)];
      nextSource := nextSource + 1;
    }

    method UpdateSource(id: nat, s: PayloadSource)
      requires id in sources
      modifies this`sources
      ensures sources == old(sources)[id := old(sources)[id].(values := s)]
    {
      sources := sources[id := sources[id].(values := s)];
    }

    method DeleteSource(id: nat)
      modifies this`sources
      ensures sources == old(sources) - {id}
    {
      sources := sources - {id};
    }

    method AddFont(v: FontValues)
      modifies this`fonts, this`nextFont
      ensures nextFont == old(nextFont) + 1 && fonts == old(fonts)[old(nextFont) := Font(v, true)]
    {
      fonts := fonts[nextFont := Font(v, true)];
      nextFont := nextFont + 1;
    }

    /** The update leaves the source column out when there is no source; a second statement
        then clears it. */
    method UpdateFont(id: nat, v: FontValues)
      requires id in fonts
      modifies this`fonts
      ensures fonts == old(fonts)[id := old(fonts)[id].(values := v)]
    {
      var sourceId := if v.sourceId.Some? then v.sourceId else fonts[id].values.sourceId;
      fonts := fonts[id := fonts[id].(values := v.(sourceId := sourceId))];
      if v.sourceId.None? {
        fonts := fonts[id := fonts[id].(values := fonts[id].values.(sourceId := None))];
      }
    }

    /** The database refuses to delete a family that still has faces. */
    method DeleteFont(id: nat)
      requires forall f :: f in faces ==> faces[f].fontId != id
      modifies this`fonts
      ensures fonts == old(fonts) - {id}
    {
      fonts := fonts - {id};
    }

    method DeleteFace(id: nat)
      modifies this`faces
      ensures faces == old(faces) - {id}
    {
      faces := faces - {id};
    }

    // ---- the reconcile loops ----

    method PutSourceRow(s: PayloadSource) returns (id: nat)
      requires StoreInv(View())
      modifies this`sources, this`nextSource
      ensures View() == PutSource(old(View()), s)
      ensures id in sources && sources[id].values.key == s.key
    {
      hide IdOfKey;
      var found := GetSourceByKey(s.key);
      if found.None? {
        id := AddSource(s);
      } else {
        id := found.value;
        UpdateSource(id, s);
      }
    }

    method PutSourceRows(list: seq<PayloadSource>) returns (sourceIdByKey: map<string, nat>)
      requires StoreInv(View()) && DistinctKeys(list)
      modifies this`sources, this`nextSource
      ensures View() == PutSources(old(View()), list) && sourceIdByKey.Keys == KeysOf(list)
      ensures NamesIds(sources, sourceIdByKey)
    {
      hide StoreInv, PutSource, PutSources, KeysOf, SourcesGrow;
      sourceIdByKey := map[];
      NoSources(View());
      for i := 0 to |list|
        invariant View() == PutSources(old(View()), list[..i]) && sourceIdByKey.Keys == KeysOf(list[..i])
        invariant NamesIds(sources, sourceIdByKey)
      {
        NextSource(old(View()), list, i);
        PutSourcesKeep(old(View()), list[..i]);
        PutSourceStep(View(), list[i]);
        ghost var before := sources;
        var id := PutSourceRow(list[i]);
        IdsStay(before, sources, sourceIdByKey, list[i].key, id);
        sourceIdByKey := sourceIdByKey[list[i].key := id];
      }
      assert list[..|list|] == list;
    }

    method PutFontRow(v: FontValues) returns (ghost row: Option<nat>)
      modifies this`fonts, this`nextFont
      ensures IsRow(old(fonts), v.family, row) && View() == PutFontAt(old(View()), v, row)
    {
      var found := GetFontByFamily(v.family);
      row := found;
      if found.None? {
        AddFont(v);
      } else {
        UpdateFont(found.value, v);
      }
    }

    /** One turn of the loop: look up the source and the row, and write the row. */
    method PutNextFont(p: Payload, i: nat, ordinal: nat, sourceIdByKey: map<string, nat>, ghost start: Inventory,
                       ghost pick: Choice) returns (ghost next: Choice)
      requires i < |p.families| && ordinal == 10 * (i + 1) && StoreInv(start) && DistinctFamilies(p.families)
      requires UniqueKeys(sources) && NamesIds(sources, sourceIdByKey) && sourceIdByKey.Keys == KeysOf(p.sources)
      requires start.sources == sources && Progress(start, View(), p, i, pick)
      modifies this`fonts, this`nextFont
      ensures Progress(start, View(), p, i + 1, next)
    {
      hide StoreInv, UniqueKeys, Progress, PutFontAt, DistinctFamilies, NamesIds, ValuesOf, Wanted, KeysOf;
      var f := p.families[i];
      var sourceId := None;
      if f.kind.Cdn? && f.sourceKey in sourceIdByKey {
        sourceId := Some(sourceIdByKey[f.sourceKey]);
      }
      SourceFound(sources, p, i, sourceIdByKey);
      ghost var before := View();
      ghost var row := PutFontRow(ValuesOf(f, sourceId, ordinal));
      MoreProgress(start, before, p, i, pick, row);
      next := Extend(pick, f.name, row);
    }

    /** Whichever row the database returns for a doubled name, rows stay under their ids and
        the result is that of some choice of rows; without doubled names it is the
        reconciled inventory. Repeated names in the payload were refused before. */
    method PutFontRows(p: Payload, sourceIdByKey: map<string, nat>) returns (ghost pick: Choice)
      requires StoreInv(View()) && DistinctFamilies(p.families) && sourceIdByKey.Keys == KeysOf(p.sources)
      requires NamesIds(sources, sourceIdByKey)
      modifies this`fonts, this`nextFont
      ensures StoreInv(View()) && OnlyFonts(old(View()), View())
      ensures FontsGrow(old(fonts), fonts, NamesOf(p.families))
      ensures Finds(old(fonts), pick, p.families) && View() == PutFontsBy(old(View()), p, |p.families|, pick)
      ensures OnceEach(old(fonts), NamesOf(p.families)) ==> View() == PutFonts(old(View()), p, |p.families|)
    {
      assert UniqueKeys(sources);
      hide StoreInv, UniqueKeys, Progress, DistinctFamilies, NamesIds, Finds, FontsGrow, OnceEach, PutFontsBy, PutFonts, NamesOf;
      pick := map[];
      NoProgress(View(), p);
      var ordinal := 10;
      for i := 0 to |p.families|
        invariant ordinal == 10 * (i + 1) && sources == old(sources)
        invariant Progress(old(View()), View(), p, i, pick)
      {
        pick := PutNextFont(p, i, ordinal, sourceIdByKey, old(View()), pick);
        ordinal := ordinal + 10;
      }
      AllProgress(old(View()), View(), p, pick);
    }

    // ---- the deletions ----

    method DeleteFacesOf(id: nat)
      modifies this`faces
      ensures faces == map f | f in old(faces) && old(faces)[f].fontId != id :: old(faces)[f]
    {
      var list := set f | f in faces && faces[f].fontId == id;
      while list != {}
        invariant list <= faces.Keys <= old(faces).Keys
        invariant forall f :: f in old(faces) && (old(faces)[f].fontId != id || f in list) ==> f in faces
        invariant forall f :: f in faces ==>
          faces[f] == old(faces)[f] && (old(faces)[f].fontId == id ==> f in list)
      {
        var f :| f in list;
        DeleteFace(f);
        list := list - {f};
      }
    }

    method DeleteUnlistedFonts(kept: set<string>)
      modifies this`fonts, this`faces
      ensures View() == DropFonts(old(View()), kept)
    {
      var rows := fonts.Keys;
      while rows != {}
        invariant rows <= old(fonts).Keys
        invariant fonts == Remaining(old(fonts), kept, rows)
        invariant faces == RemainingFaces(old(fonts), old(faces), kept, rows)
      {
        var id :| id in rows;
        if fonts[id].values.family !in kept {
          DeleteFacesOf(id);
          DeleteFont(id);
        }
        rows := rows - {id};
      }
    }

    method DeleteUnlistedSources(kept: set<string>)
      modifies this`sources
      ensures View() == DropSources(old(View()), kept)
    {
      var rows := sources.Keys;
      while rows != {}
        invariant rows <= old(sources).Keys
        invariant sources
          == map id | id in old(sources) && (id in rows || old(sources)[id].values.key in kept) :: old(sources)[id]
      {
        var id :| id in rows;
        if sources[id].values.key !in kept {
          DeleteSource(id);
        }
        rows := rows - {id};
      }
    }
  }

  /** Families left while the given rows are still to be looked at. */
  ghost function Remaining(fonts: map<nat, Font>, kept: set<string>, rows: set<nat>): map<nat, Font> {
    map id | id in fonts && (id in rows || !Unlisted(fonts, kept, id)) :: fonts[id]
  }

  ghost function RemainingFaces(fonts: map<nat, Font>, faces: map<nat, Face>, kept: set<string>, rows: set<nat>)
    : map<nat, Face>
  {
    map f | f in faces && (faces[f].fontId in rows || !Unlisted(fonts, kept, faces[f].fontId)) :: faces[f]
  }

  // ---- the handler ----

  method ValidateSources(rules: Rules, list: seq<PayloadSource>) returns (ok: bool)
    ensures ok == (DistinctKeys(list) && forall s :: s in list ==> SourceOk(rules, s))
  {
    var sourceKeys: set<string> := {};
    for i := 0 to |list|
      invariant sourceKeys == set j | 0 <= j < i :: list[j].key
      invariant DistinctKeys(list[..i]) && forall j :: 0 <= j < i ==> SourceOk(rules, list[j])
    {
      var s := list[i];
      assert s in list;
      if s.key == "" { return false; }
      if s.key in sourceKeys { return false; }
      sourceKeys := sourceKeys + {s.key};
      if !rules.url(s.baseUrl) { return false; }
      if s.suffix != "" && !rules.spec(s.suffix) { return false; }
    }
    assert list[..|list|] == list;
    return true;
  }

  method ValidateFamilies(rules: Rules, list: seq<PayloadFamily>) returns (ok: bool)
    ensures ok == (DistinctFamilies(list) && forall f :: f in list ==> FamilyOk(rules, f))
  {
    var familyNames: set<string> := {};
    for i := 0 to |list|
      invariant familyNames == set j | 0 <= j < i :: list[j].name
      invariant DistinctFamilies(list[..i]) && forall j :: 0 <= j < i ==> FamilyOk(rules, list[j])
    {
      var f := list[i];
      assert f in list;
      if !rules.familyName(f.name) { return false; }
      if f.name in familyNames { return false; }
      familyNames := familyNames + {f.name};
      if f.fallback == "" || !rules.familyList(f.fallback) { return false; }
      if f.kind.Unknown? { return false; }
      if f.kind.Cdn? {
        if !rules.spec(f.spec) { return false; }
        if f.sourceKey == "" { return false; }
      }
    }
    assert list[..|list|] == list;
    return true;
  }

  /** A refused PUT writes nothing. An accepted one keeps ids, flags and faces, whichever
      row the database returns for a doubled name, and is the PUT by those rows; and where no listed family name is
      doubled it leaves exactly the payload's inventory. */
  method PutManageSiteFonts(db: SiteFonts, rules: Rules, admin: bool, body: Option<Payload>)
    returns (ok: bool, ghost pick: Choice)
    requires StoreInv(db.View())
    modifies db
    ensures ok == (admin && body.Some? && PayloadOk(rules, body.value))
    ensures !ok ==> db.View() == old(db.View())
    ensures StoreInv(db.View())
    ensures ok ==> Keeps(old(db.View()), db.View(), body.value)
    ensures ok ==> Good(old(db.View()), body.value) && Finds(old(db.fonts), pick, body.value.families)
    ensures ok ==> db.View() == PutBy(old(db.View()), body.value, pick)
    ensures ok && OnceEach(old(db.fonts), NamesOf(body.value.families)) ==>
      db.View() == Put(old(db.View()), body.value) && HoldsPayload(db.View(), body.value)
    ensures ok ==> HoldsFoundRows(old(db.View()), db.View(), body.value, pick)
  {
    hide HoldsPayload, HoldsFoundRows;
    pick := map[];
    if !admin || body.None? { return false, pick; }
    var p := body.value;
    ok := ValidateSources(rules, p.sources);
    if !ok { return; }
    ok := ValidateFamilies(rules, p.families);
    if !ok { return; }
    pick := Reconcile(db, p);
  }

  method Reconcile(db: SiteFonts, p: Payload) returns (ghost pick: Choice)
    requires StoreInv(db.View()) && DistinctKeys(p.sources) && DistinctFamilies(p.families)
    modifies db
    ensures StoreInv(db.View()) && Keeps(old(db.View()), db.View(), p)
    ensures Finds(old(db.fonts), pick, p.families) && db.View() == PutBy(old(db.View()), p, pick)
    ensures OnceEach(old(db.fonts), NamesOf(p.families)) ==>
      db.View() == Put(old(db.View()), p) && HoldsPayload(db.View(), p)
    ensures HoldsFoundRows(old(db.View()), db.View(), p, pick)
  {
    hide StoreInv, Described, HoldsPayload, HoldsFoundRows, Keeps, OnceEach, PutSources, PutFonts, SourcesGrow, FontsGrow, DropFonts, DropSources, KeysOf, NamesOf,
      DistinctKeys, DistinctFamilies;
    ghost var before := db.View();
    PutSourcesKeep(before, p.sources);
    FacesHaveFonts(before);
    var sourceIdByKey := db.PutSourceRows(p.sources);
    pick := db.PutFontRows(p, sourceIdByKey);
    ghost var merged := db.View();
    db.DeleteUnlistedFonts(NamesOf(p.families));
    db.DeleteUnlistedSources(KeysOf(p.sources));
    DropsKeep(merged, NamesOf(p.families), KeysOf(p.sources));
    DroppedKeeps(before, merged, p);
    PutByOutcome(before, p, pick);
    if OnceEach(before.fonts, NamesOf(p.families)) {
      PutDescribes(before, p);
    }
  }

  lemma FacesHaveFonts(inv: Inventory)
    requires StoreInv(inv)
    ensures forall f :: f in inv.faces ==> inv.faces[f].fontId in inv.fonts
  {
  }

  /** Each key leads to a row of that key. */
  ghost predicate NamesIds(sources: map<nat, Source>, ids: map<string, nat>) {
    forall key :: key in ids ==> ids[key] in sources && sources[ids[key]].values.key == key
  }

  /** The row a lookup by name may return. */
  ghost predicate IsRow(fonts: map<nat, Font>, family: string, row: Option<nat>) {
    && (row.Some? ==> row.value in fonts && fonts[row.value].values.family == family)
    && (row.None? ==> forall id :: id in fonts ==> fonts[id].values.family != family)
  }

  /** The state of the family loop after n families. */
  ghost predicate Progress(start: Inventory, now: Inventory, p: Payload, n: nat, pick: Choice)
    requires n <= |p.families|
  {
    && StoreInv(now) && OnlyFonts(start, now) && FontsGrow(start.fonts, now.fonts, NamesOf(p.families[..n]))
    && FindsFirst(start.fonts, pick, p.families, n) && now == PutFontsBy(start, p, n, pick)
    && (OnceEach(start.fonts, NamesOf(p.families)) ==> now == PutFonts(start, p, n))
  }

  lemma NoProgress(inv: Inventory, p: Payload)
    requires StoreInv(inv)
    ensures Progress(inv, inv, p, 0, map[])
  {
    hide StoreInv;
    assert p.families[..0] == [];
  }

  /** Without doubled names there is one row to find. */
  lemma TheRow(inv: Inventory, v: FontValues, row: Option<nat>, names: set<string>)
    requires OnceEach(inv.fonts, names) && v.family in names && IsRow(inv.fonts, v.family, row)
    ensures PutFontAt(inv, v, row) == PutFont(inv, v)
  {
    hide IdOfFamily, PutFontAt;
    var other := IdOfFamily(inv.fonts, v.family);
    assert row.Some? && other.Some? ==> SameName(inv.fonts[row.value], inv.fonts[other.value], names);
  }

  lemma MoreProgress(start: Inventory, now: Inventory, p: Payload, n: nat, pick: Choice, row: Option<nat>)
    requires StoreInv(start) && DistinctFamilies(p.families) && n < |p.families| && Progress(start, now, p, n, pick)
    requires IsRow(now.fonts, p.families[n].name, row)
    ensures Progress(start, PutFontAt(now, Wanted(start.sources, p, n), row), p, n + 1, Extend(pick, p.families[n].name, row))
  {
    hide StoreInv, FontsGrow, NamesOf, FindsFirst, DistinctFamilies, OnceEach, PutFontAt, PutFontsBy, PutFont, Extend, Wanted;
    var v, names := Wanted(start.sources, p, n), NamesOf(p.families);
    PutFontAtKeeps(now, v, row);
    NamesOfNext(p.families, n);
    FontsGrowTwice(start.fonts, now.fonts, PutFontAt(now, v, row).fonts, NamesOf(p.families[..n]), {v.family});
    NextChoice(start, p, n, pick, row);
    if OnceEach(start.fonts, names) {
      PutFontsOnce(start, p, n, names);
      ListedName(p.families, n);
      TheRow(now, v, row, names);
    }
  }

  lemma AllProgress(start: Inventory, now: Inventory, p: Payload, pick: Choice)
    requires Progress(start, now, p, |p.families|, pick)
    ensures StoreInv(now) && OnlyFonts(start, now) && FontsGrow(start.fonts, now.fonts, NamesOf(p.families))
    ensures Finds(start.fonts, pick, p.families) && now == PutFontsBy(start, p, |p.families|, pick)
    ensures OnceEach(start.fonts, NamesOf(p.families)) ==> now == PutFonts(start, p, |p.families|)
  {
    hide StoreInv, FontsGrow, NamesOf, OnceEach, PutFontsBy, FindsFirst, Finds;
    assert p.families[..|p.families|] == p.families;
    FindsAll(start.fonts, pick, p.families);
  }

  /** The id map gives a downloaded family the source that the payload wants for it. */
  lemma SourceFound(sources: map<nat, Source>, p: Payload, i: nat, ids: map<string, nat>)
    requires UniqueKeys(sources) && NamesIds(sources, ids) && ids.Keys == KeysOf(p.sources) && i < |p.families|
    ensures var f := p.families[i];
      var sourceId := if f.kind.Cdn? && f.sourceKey in ids then Some(ids[f.sourceKey]) else None;
      ValuesOf(f, sourceId, 10 * (i + 1)) == Wanted(sources, p, i)
  {
    hide IdOfKey, KeysOf;
  }

  lemma NoSources(inv: Inventory)
    ensures PutSources(inv, []) == inv && KeysOf([]) == {}
  {
  }

  lemma NextSource(inv: Inventory, list: seq<PayloadSource>, i: nat)
    requires i < |list|
    ensures PutSources(inv, list[..i + 1]) == PutSource(PutSources(inv, list[..i]), list[i])
    ensures KeysOf(list[..i + 1]) == KeysOf(list[..i]) + {list[i].key}
  {
    hide PutSource;
    assert list[..i + 1][..i] == list[..i];
    KeysOfSnoc(list[..i + 1]);
  }

  lemma IdsStay(a: map<nat, Source>, b: map<nat, Source>, ids: map<string, nat>, key: string, id: nat)
    requires NamesIds(a, ids) && SourcesGrow(a, b, {key}) && id in b && b[id].values.key == key
    ensures NamesIds(b, ids[key := id])
  {
  }
}
