/** Replacing the whole font inventory: validate everything, then reconcile sources by key
    and families by name, so that kept rows keep their ids and their uploaded faces. */
module Fonts {
  import opened Wrappers

  datatype Kind = Cdn | Uploaded | System | Unknown(text: string)

  datatype PayloadSource = PayloadSource(
    key: string, displayName: string, baseUrl: string, suffix: string, preconnects: string)

  datatype PayloadFamily = PayloadFamily(
    name: string, fallback: string, kind: Kind, sourceKey: string, spec: string)

  /** A list that is absent or not an array is empty. */
  datatype Payload = Payload(sources: seq<PayloadSource>, families: seq<PayloadFamily>)

  /** Rows of site_font_sources, site_fonts and site_font_faces, by their ids. */
  datatype Source = Source(values: PayloadSource, active: bool)
  datatype FontValues = FontValues(
    family: string, fallback: string, kind: Kind, sourceId: Option<nat>, spec: string, ordinal: nat)
  datatype Font = Font(values: FontValues, active: bool)
  datatype Face = Face(fontId: nat, weight: int, style: string, format: string, bytes: string)

  datatype Inventory = Inventory(
    sources: map<nat, Source>, fonts: map<nat, Font>, faces: map<nat, Face>, nextSource: nat, nextFont: nat)

  /** What the tables' own constraints guarantee: serial ids, unique source keys, and faces
      that refer to a font. Family names carry no such constraint. */
  ghost predicate StoreInv(inv: Inventory) {
    && inv.nextSource > 0 && inv.nextFont > 0
    && (forall id :: id in inv.sources ==> 0 < id < inv.nextSource)
    && (forall id :: id in inv.fonts ==> 0 < id < inv.nextFont)
    && UniqueKeys(inv.sources)
    && (forall f :: f in inv.faces ==> inv.faces[f].fontId in inv.fonts)
  }

  ghost predicate UniqueKeys(sources: map<nat, Source>) {
    forall a, b :: a in sources && b in sources && sources[a].values.key == sources[b].values.key ==> a == b
  }

  /** No two rows share one of these family names. */
  ghost predicate OnceEach(fonts: map<nat, Font>, names: set<string>) {
    forall a, b | a in fonts && b in fonts && SameName(fonts[a], fonts[b], names) :: a == b
  }

  ghost predicate SameName(a: Font, b: Font, names: set<string>) {
    a.values.family == b.values.family && a.values.family in names
  }

  function KeysOf(sources: seq<PayloadSource>): set<string> { set s | s in sources :: s.key }

  function NamesOf(families: seq<PayloadFamily>): set<string> { set f | f in families :: f.name }

  // ---- reconciling, as functions ----

  ghost function IdOfKey(sources: map<nat, Source>, key: string): (r: Option<nat>)
    ensures r.Some? ==> r.value in sources && sources[r.value].values.key == key
    ensures r.None? ==> forall id :: id in sources ==> sources[id].values.key != key
  {
    if exists id :: id in sources && sources[id].values.key == key then
      var id :| id in sources && sources[id].values.key == key; Some(id)
    else None
  }

  ghost function IdOfFamily(fonts: map<nat, Font>, family: string): (r: Option<nat>)
    ensures r.Some? ==> r.value in fonts && fonts[r.value].values.family == family
    ensures r.None? ==> forall id :: id in fonts ==> fonts[id].values.family != family
  {
    if exists id :: id in fonts && fonts[id].values.family == family then
      var id :| id in fonts && fonts[id].values.family == family; Some(id)
    else None
  }

  ghost function PutSource(inv: Inventory, s: PayloadSource): Inventory {
    match IdOfKey(inv.sources, s.key)
    case None =>
      inv.(sources := inv.sources[inv.nextSource := Source(s, true)], nextSource := inv.nextSource + 1)
    case Some(id) =>
      inv.(sources := inv.sources[id := inv.sources[id].(values := s)])
  }

  ghost function PutSources(inv: Inventory, sources: seq<PayloadSource>): Inventory {
    if sources == [] then inv
    else PutSource(PutSources(inv, sources[..|sources| - 1]), sources[|sources| - 1])
  }

  /** The source a downloaded family gets: the one the payload lists under its key. */
  ghost function SourceIdOf(rows: map<nat, Source>, sources: seq<PayloadSource>, f: PayloadFamily): Option<nat> {
    if f.kind.Cdn? && f.sourceKey in KeysOf(sources) then IdOfKey(rows, f.sourceKey) else None
  }

  function ValuesOf(f: PayloadFamily, sourceId: Option<nat>, ordinal: nat): FontValues {
    FontValues(f.name, f.fallback, f.kind, sourceId, if f.kind.Cdn? then f.spec else "", ordinal)
  }

  /** The row that was found, whichever it is, is updated; without one a row is added. */
  function PutFontAt(inv: Inventory, v: FontValues, found: Option<nat>): Inventory
    requires found.Some? ==> found.value in inv.fonts
  {
    match found
    case None =>
      inv.(fonts := inv.fonts[inv.nextFont := Font(v, true)], nextFont := inv.nextFont + 1)
    case Some(id) =>
      inv.(fonts := inv.fonts[id := inv.fonts[id].(values := v)])
  }

  ghost function PutFont(inv: Inventory, v: FontValues): Inventory {
    PutFontAt(inv, v, IdOfFamily(inv.fonts, v.family))
  }

  /** The row the i-th family of the payload asks for. */
  ghost function Wanted(rows: map<nat, Source>, p: Payload, i: nat): (v: FontValues)
    requires i < |p.families|
    ensures v.family == p.families[i].name
  {
    ValuesOf(p.families[i], SourceIdOf(rows, p.sources, p.families[i]), 10 * (i + 1))
  }

  ghost function PutFonts(inv: Inventory, p: Payload, n: nat): Inventory
    requires n <= |p.families|
  {
    if n == 0 then inv
    else PutFont(PutFonts(inv, p, n - 1), Wanted(inv.sources, p, n - 1))
  }

  predicate Unlisted(fonts: map<nat, Font>, names: set<string>, id: nat) {
    id in fonts && fonts[id].values.family !in names
  }

  function DropFonts(inv: Inventory, names: set<string>): Inventory {
    inv.(fonts := map id | id in inv.fonts && !Unlisted(inv.fonts, names, id) :: inv.fonts[id],
         faces := map f | f in inv.faces && !Unlisted(inv.fonts, names, inv.faces[f].fontId) :: inv.faces[f])
  }

  function DropSources(inv: Inventory, keys: set<string>): Inventory {
    inv.(sources := map id | id in inv.sources && inv.sources[id].values.key in keys :: inv.sources[id])
  }

  ghost function Put(inv: Inventory, p: Payload): Inventory {
    DropSources(DropFonts(PutFonts(PutSources(inv, p.sources), p, |p.families|), NamesOf(p.families)), KeysOf(p.sources))
  }

  // ---- validation ----

  datatype Rules = Rules(
    url: string -> bool, spec: string -> bool, familyName: string -> bool, familyList: string -> bool)

  predicate SourceOk(rules: Rules, s: PayloadSource) {
    s.key != "" && rules.url(s.baseUrl) && (s.suffix != "" ==> rules.spec(s.suffix))
  }

  predicate FamilyOk(rules: Rules, f: PayloadFamily) {
    && rules.familyName(f.name)
    && f.fallback != "" && rules.familyList(f.fallback)
    && !f.kind.Unknown?
    && (f.kind.Cdn? ==> rules.spec(f.spec) && f.sourceKey != "")
  }

  predicate DistinctKeys(sources: seq<PayloadSource>) {
    forall i, j :: 0 <= i < j < |sources| ==> sources[i].key != sources[j].key
  }

  predicate DistinctFamilies(families: seq<PayloadFamily>) {
    forall i, j :: 0 <= i < j < |families| ==> families[i].name != families[j].name
  }

  predicate PayloadOk(rules: Rules, p: Payload) {
    && DistinctKeys(p.sources) && (forall s :: s in p.sources ==> SourceOk(rules, s))
    && DistinctFamilies(p.families) && (forall f :: f in p.families ==> FamilyOk(rules, f))
  }

  // ---- what a reconciled inventory looks like ----

  ghost predicate ShowsSource(inv: Inventory, s: PayloadSource) {
    exists id :: id in inv.sources && inv.sources[id].values == s
  }

  ghost predicate ShowsFont(inv: Inventory, v: FontValues) {
    exists id :: id in inv.fonts && inv.fonts[id].values == v
  }

  /** The row of the i-th family, field by field: a downloaded family with a listed source
      refers to the row of that source, and every other family to none. */
  ghost predicate HoldsFamily(v: FontValues, sources: map<nat, Source>, p: Payload, i: nat)
    requires i < |p.families|
  {
    var f := p.families[i];
    && v.family == f.name && v.fallback == f.fallback && v.kind == f.kind && v.ordinal == 10 * (i + 1)
    && v.spec == (if f.kind == Cdn then f.spec else "")
    && (v.sourceId.Some? <==> f.kind == Cdn && exists s :: s in p.sources && s.key == f.sourceKey)
    && (v.sourceId.Some? ==> v.sourceId.value in sources && sources[v.sourceId.value].values.key == f.sourceKey)
  }

  lemma WantedHolds(sources: map<nat, Source>, p: Payload, i: nat)
    requires i < |p.families|
    requires forall s :: s in p.sources ==> exists id :: id in sources && sources[id].values == s
    ensures HoldsFamily(Wanted(sources, p, i), sources, p, i)
  {
    hide IdOfKey;
  }

  /** The inventory is exactly what the payload says. */
  ghost predicate Described(inv: Inventory, p: Payload) {
    && StoreInv(inv) && OnceEach(inv.fonts, NamesOf(p.families))
    && (forall s :: s in p.sources ==> ShowsSource(inv, s))
    && (forall id :: id in inv.sources ==> inv.sources[id].values.key in KeysOf(p.sources))
    && (forall i :: 0 <= i < |p.families| ==> ShowsFont(inv, Wanted(inv.sources, p, i)))
    && (forall id :: id in inv.fonts ==> inv.fonts[id].values.family in NamesOf(p.families))
  }

  // ---- sources ----

  /** Between two inventories: rows stay under their ids, keys and active flags; new rows
      have one of the keys. */
  ghost predicate SourcesGrow(a: map<nat, Source>, b: map<nat, Source>, keys: set<string>) {
    && (forall id :: id in a ==>
          id in b && b[id].values.key == a[id].values.key && b[id].active == a[id].active)
    && (forall id :: id in b && id !in a ==> b[id].values.key in keys && b[id].active)
  }

  lemma SourcesGrowTwice(a: map<nat, Source>, b: map<nat, Source>, c: map<nat, Source>,
                         first: set<string>, second: set<string>)
    requires SourcesGrow(a, b, first) && SourcesGrow(b, c, second)
    ensures SourcesGrow(a, c, first + second)
  {
  }

  ghost predicate OnlySources(a: Inventory, b: Inventory) {
    b.fonts == a.fonts && b.faces == a.faces && b.nextFont == a.nextFont
  }

  lemma SourceRowStep(inv: Inventory, s: PayloadSource, id: nat, row: Source)
    requires StoreInv(inv) && row.values == s
    requires if id in inv.sources then inv.sources[id].values.key == s.key && row.active == inv.sources[id].active
      else row.active && id > 0 && forall other :: other in inv.sources ==> inv.sources[other].values.key != s.key
    ensures var sources := inv.sources[id := row];
      UniqueKeys(sources) && SourcesGrow(inv.sources, sources, {s.key}) && sources[id].values == s
  {
  }

  lemma PutSourceStep(inv: Inventory, s: PayloadSource)
    requires StoreInv(inv)
    ensures var b := PutSource(inv, s);
      StoreInv(b) && SourcesGrow(inv.sources, b.sources, {s.key}) && OnlySources(inv, b) && ShowsSource(b, s)
  {
    hide IdOfKey, UniqueKeys, SourcesGrow;
    match IdOfKey(inv.sources, s.key) {
      case None => SourceRowStep(inv, s, inv.nextSource, Source(s, true));
      case Some(id) => SourceRowStep(inv, s, id, inv.sources[id].(values := s));
    }
  }

  lemma OtherSourcesShown(inv: Inventory, s: PayloadSource, t: PayloadSource)
    requires StoreInv(inv) && t.key != s.key && ShowsSource(inv, t)
    ensures ShowsSource(PutSource(inv, s), t)
  {
    var b := PutSource(inv, s);
    var id :| id in inv.sources && inv.sources[id].values == t;
    assert id in b.sources && b.sources[id].values == t;
  }

  lemma KeysOfSnoc(sources: seq<PayloadSource>)
    requires sources != []
    ensures KeysOf(sources) == KeysOf(sources[..|sources| - 1]) + {sources[|sources| - 1].key}
  {
    var rest, s := sources[..|sources| - 1], sources[|sources| - 1];
    assert sources == rest + [s];
  }

  lemma {:induction false} PutSourcesKeep(inv: Inventory, sources: seq<PayloadSource>)
    requires StoreInv(inv) && DistinctKeys(sources)
    ensures var b := PutSources(inv, sources);
      && StoreInv(b) && SourcesGrow(inv.sources, b.sources, KeysOf(sources)) && OnlySources(inv, b)
      && forall s :: s in sources ==> ShowsSource(b, s)
  {
    if sources != [] {
      hide StoreInv, ShowsSource, PutSource, SourcesGrow, KeysOf;
      var rest, s := sources[..|sources| - 1], sources[|sources| - 1];
      PutSourcesKeep(inv, rest);
      var mid := PutSources(inv, rest);
      PutSourceStep(mid, s);
      SourcesGrowTwice(inv.sources, mid.sources, PutSource(mid, s).sources, KeysOf(rest), {s.key});
      KeysOfSnoc(sources);
      forall t | t in sources ensures ShowsSource(PutSource(mid, s), t) {
        if t != s {
          var i :| 0 <= i < |sources| && sources[i] == t;
          assert rest[i] == t;
          OtherSourcesShown(mid, s, t);
        }
      }
    }
  }

  // ---- families ----

  ghost predicate FontsGrow(a: map<nat, Font>, b: map<nat, Font>, names: set<string>) {
    && (forall id :: id in a ==>
          id in b && b[id].values.family == a[id].values.family && b[id].active == a[id].active)
    && (forall id :: id in b && id !in a ==> b[id].values.family in names && b[id].active)
  }

  lemma FontsGrowTwice(a: map<nat, Font>, b: map<nat, Font>, c: map<nat, Font>,
                       first: set<string>, second: set<string>)
    requires FontsGrow(a, b, first) && FontsGrow(b, c, second)
    ensures FontsGrow(a, c, first + second)
  {
  }

  ghost predicate OnlyFonts(a: Inventory, b: Inventory) {
    b.sources == a.sources && b.faces == a.faces && b.nextSource == a.nextSource
  }

  lemma PutFontAtKeeps(inv: Inventory, v: FontValues, found: Option<nat>)
    requires StoreInv(inv)
    requires found.Some? ==> found.value in inv.fonts && inv.fonts[found.value].values.family == v.family
    ensures var b := PutFontAt(inv, v, found);
      StoreInv(b) && FontsGrow(inv.fonts, b.fonts, {v.family}) && OnlyFonts(inv, b)
  {
  }

  lemma PutFontStep(inv: Inventory, v: FontValues)
    requires StoreInv(inv)
    ensures var b := PutFont(inv, v);
      StoreInv(b) && FontsGrow(inv.fonts, b.fonts, {v.family}) && OnlyFonts(inv, b) && ShowsFont(b, v)
  {
    hide IdOfFamily;
    var b := PutFont(inv, v);
    match IdOfFamily(inv.fonts, v.family) {
      case None => assert b.fonts[inv.nextFont].values == v;
      case Some(id) => assert b.fonts[id].values == v;
    }
  }

  lemma OtherFontsShown(inv: Inventory, v: FontValues, w: FontValues)
    requires StoreInv(inv) && w.family != v.family && ShowsFont(inv, w)
    ensures ShowsFont(PutFont(inv, v), w)
  {
    var b := PutFont(inv, v);
    var id :| id in inv.fonts && inv.fonts[id].values == w;
    assert id in b.fonts && b.fonts[id].values == w;
  }

  lemma NamesOfNext(families: seq<PayloadFamily>, n: nat)
    requires n < |families|
    ensures NamesOf(families[..n + 1]) == NamesOf(families[..n]) + {families[n].name}
  {
    assert families[..n + 1] == families[..n] + [families[n]];
  }

  lemma {:induction false} PutFontsKeep(inv: Inventory, p: Payload, n: nat)
    requires StoreInv(inv) && n <= |p.families|
    ensures var b := PutFonts(inv, p, n);
      StoreInv(b) && FontsGrow(inv.fonts, b.fonts, NamesOf(p.families[..n])) && OnlyFonts(inv, b)
  {
    hide StoreInv, ShowsFont, PutFont, Wanted, NamesOf;
    if n > 0 {
      hide FontsGrow;
      PutFontsKeep(inv, p, n - 1);
      var mid := PutFonts(inv, p, n - 1);
      var v := Wanted(inv.sources, p, n - 1);
      PutFontStep(mid, v);
      FontsGrowTwice(inv.fonts, mid.fonts, PutFont(mid, v).fonts, NamesOf(p.families[..n - 1]), {v.family});
      NamesOfNext(p.families, n - 1);
    }
  }

  lemma {:induction false} PutFontsShow(inv: Inventory, p: Payload, n: nat, i: nat)
    requires StoreInv(inv) && DistinctFamilies(p.families) && i < n <= |p.families|
    ensures ShowsFont(PutFonts(inv, p, n), Wanted(inv.sources, p, i))
  {
    hide StoreInv, ShowsFont, PutFont, Wanted;
    var mid := PutFonts(inv, p, n - 1);
    var v := Wanted(inv.sources, p, n - 1);
    PutFontsKeep(inv, p, n - 1);
    if i == n - 1 {
      PutFontStep(mid, v);
    } else {
      PutFontsShow(inv, p, n - 1, i);
      OtherFontsShown(mid, v, Wanted(inv.sources, p, i));
    }
  }

  /** One more family neither makes nor removes a doubled name. */
  lemma PutFontOnce(inv: Inventory, v: FontValues, names: set<string>)
    requires StoreInv(inv)
    ensures OnceEach(PutFont(inv, v).fonts, names) <==> OnceEach(inv.fonts, names)
  {
    hide IdOfFamily;
    var b := PutFont(inv, v);
    if OnceEach(b.fonts, names) {
      forall x, y | x in inv.fonts && y in inv.fonts && SameName(inv.fonts[x], inv.fonts[y], names)
        ensures x == y
      {
        assert x in b.fonts && y in b.fonts;
      }
    }
  }

  lemma {:induction false} PutFontsOnce(inv: Inventory, p: Payload, n: nat, names: set<string>)
    requires StoreInv(inv) && n <= |p.families|
    ensures OnceEach(PutFonts(inv, p, n).fonts, names) <==> OnceEach(inv.fonts, names)
  {
    hide StoreInv, PutFont, OnceEach, Wanted;
    if n > 0 {
      PutFontsOnce(inv, p, n - 1, names);
      PutFontsKeep(inv, p, n - 1);
      PutFontOnce(PutFonts(inv, p, n - 1), Wanted(inv.sources, p, n - 1), names);
    }
  }

  // ---- the whole PUT ----

  /** What a PUT keeps: rows that the payload still lists stay under their ids with their
      active flags, and their faces, and no others, stay as they were. New rows are active. */
  ghost predicate Keeps(a: Inventory, b: Inventory, p: Payload) {
    && (forall id :: id in a.sources && a.sources[id].values.key in KeysOf(p.sources) ==>
          id in b.sources && b.sources[id].values.key == a.sources[id].values.key
          && b.sources[id].active == a.sources[id].active)
    && (forall id :: id in a.fonts && a.fonts[id].values.family in NamesOf(p.families) ==>
          id in b.fonts && b.fonts[id].values.family == a.fonts[id].values.family
          && b.fonts[id].active == a.fonts[id].active)
    && (forall f :: f in b.faces <==> f in a.faces && a.faces[f].fontId in a.fonts && a.fonts[a.faces[f].fontId].values.family in NamesOf(p.families))
    && (forall f :: f in b.faces ==> b.faces[f] == a.faces[f])
    && (forall id :: id in b.sources && id !in a.sources ==> b.sources[id].active)
    && (forall id :: id in b.fonts && id !in a.fonts ==> b.fonts[id].active)
  }

  lemma DropsKeep(b: Inventory, names: set<string>, keys: set<string>)
    requires StoreInv(b)
    ensures StoreInv(DropSources(DropFonts(b, names), keys))
    ensures OnceEach(DropFonts(b, names).fonts, names) <==> OnceEach(b.fonts, names)
  {
    var d := DropFonts(b, names);
    if OnceEach(d.fonts, names) {
      forall x, y | x in b.fonts && y in b.fonts && SameName(b.fonts[x], b.fonts[y], names) ensures x == y {
        assert x in d.fonts && y in d.fonts;
      }
    }
  }

  /** The inventory before anything is dropped. */
  ghost function Merged(inv: Inventory, p: Payload): Inventory {
    PutFonts(PutSources(inv, p.sources), p, |p.families|)
  }

  lemma MergedGrows(inv: Inventory, p: Payload)
    requires StoreInv(inv) && DistinctKeys(p.sources)
    ensures var b := Merged(inv, p);
      && StoreInv(b) && b.faces == inv.faces && b.sources == PutSources(inv, p.sources).sources
      && SourcesGrow(inv.sources, b.sources, KeysOf(p.sources)) && FontsGrow(inv.fonts, b.fonts, NamesOf(p.families))
  {
    hide StoreInv, SourcesGrow, FontsGrow, PutFonts, PutSources;
    PutSourcesKeep(inv, p.sources);
    PutFontsKeep(PutSources(inv, p.sources), p, |p.families|);
    assert p.families[..|p.families|] == p.families;
  }

  ghost function Dropped(b: Inventory, p: Payload): Inventory {
    DropSources(DropFonts(b, NamesOf(p.families)), KeysOf(p.sources))
  }

  lemma DroppedKeeps(a: Inventory, b: Inventory, p: Payload)
    requires b.faces == a.faces && forall f :: f in a.faces ==> a.faces[f].fontId in a.fonts
    requires SourcesGrow(a.sources, b.sources, KeysOf(p.sources)) && FontsGrow(a.fonts, b.fonts, NamesOf(p.families))
    ensures Keeps(a, Dropped(b, p), p)
  {
    hide KeysOf, NamesOf;
  }

  /** Whatever the payload drops, what it still lists keeps its ids and faces. A doubled
      family name stays doubled: the names are distinct afterwards exactly when no two rows
      shared a listed name before. */
  lemma PutKeeps(inv: Inventory, p: Payload)
    requires StoreInv(inv) && DistinctKeys(p.sources)
    ensures StoreInv(Put(inv, p)) && Keeps(inv, Put(inv, p), p)
    ensures OnceEach(Put(inv, p).fonts, NamesOf(p.families)) <==> OnceEach(inv.fonts, NamesOf(p.families))
  {
    hide OnceEach, PutSources, PutFonts, Keeps, SourcesGrow, FontsGrow, KeysOf, NamesOf;
    MergedGrows(inv, p);
    DropsKeep(Merged(inv, p), NamesOf(p.families), KeysOf(p.sources));
    PutSourcesKeep(inv, p.sources);
    PutFontsOnce(PutSources(inv, p.sources), p, |p.families|, NamesOf(p.families));
    DroppedKeeps(inv, Merged(inv, p), p);
  }

  lemma SameId(b: map<nat, Source>, d: map<nat, Source>, key: string)
    requires UniqueKeys(b)
    requires forall id :: id in d ==> id in b && d[id] == b[id]
    requires forall id :: id in b && b[id].values.key == key ==> id in d
    ensures IdOfKey(d, key) == IdOfKey(b, key)
  {
    hide IdOfKey;
    var x, y := IdOfKey(b, key), IdOfKey(d, key);
    if x.Some? { assert x.value in d; }
    if y.Some? { assert y.value in b; }
  }

  lemma DropsShowSource(b: Inventory, p: Payload, s: PayloadSource)
    requires ShowsSource(b, s) && s in p.sources
    ensures ShowsSource(Dropped(b, p), s)
  {
    var id :| id in b.sources && b.sources[id].values == s;
    assert Dropped(b, p).sources[id].values == s;
  }

  lemma DropsShowFont(b: Inventory, p: Payload, i: nat)
    requires StoreInv(b) && i < |p.families| && ShowsFont(b, Wanted(b.sources, p, i))
    ensures ShowsFont(Dropped(b, p), Wanted(Dropped(b, p).sources, p, i))
  {
    hide IdOfKey;
    var f, d := p.families[i], Dropped(b, p);
    if f.kind.Cdn? && f.sourceKey in KeysOf(p.sources) {
      SameId(b.sources, d.sources, f.sourceKey);
    }
    assert Wanted(d.sources, p, i) == Wanted(b.sources, p, i);
    var id :| id in b.fonts && b.fonts[id].values == Wanted(b.sources, p, i);
    assert d.fonts[id].values == Wanted(d.sources, p, i);
  }

  /** A PUT leaves exactly what the payload says: its source keys and family names, each
      row with the payload's values, and every downloaded family on an existing source or
      on none. */
  lemma PutDescribes(inv: Inventory, p: Payload)
    requires StoreInv(inv) && DistinctKeys(p.sources) && DistinctFamilies(p.families)
    requires OnceEach(inv.fonts, NamesOf(p.families))
    ensures Described(Put(inv, p), p) && HoldsPayload(Put(inv, p), p)
  {
    hide HoldsPayload, StoreInv, OnceEach, PutSources, PutFonts, Keeps, SourcesGrow, FontsGrow, Wanted, ShowsSource, ShowsFont;
    var a, b := PutSources(inv, p.sources), Merged(inv, p);
    PutKeeps(inv, p);
    MergedGrows(inv, p);
    PutSourcesKeep(inv, p.sources);
    forall s | s in p.sources ensures ShowsSource(Put(inv, p), s) {
      SameSourcesShow(a, b, s);
      DropsShowSource(b, p, s);
    }
    forall i | 0 <= i < |p.families| ensures ShowsFont(Put(inv, p), Wanted(Put(inv, p).sources, p, i)) {
      PutFontsShow(a, p, |p.families|, i);
      DropsShowFont(b, p, i);
    }
    DescribedHolds(Put(inv, p), p);
  }

  /** Field by field: the row of each family, and the family of each row. */
  ghost predicate HoldsPayload(inv: Inventory, p: Payload) {
    && (forall i :: 0 <= i < |p.families| ==> HasRow(inv, p, i))
    && (forall id :: id in inv.fonts ==>
          exists i :: 0 <= i < |p.families| && HoldsFamily(inv.fonts[id].values, inv.sources, p, i))
    && (forall s :: s in p.sources ==> exists id :: id in inv.sources && inv.sources[id].values == s)
    && (forall id :: id in inv.sources ==> inv.sources[id].values in p.sources)
  }

  ghost predicate HasRow(inv: Inventory, p: Payload, i: nat)
    requires i < |p.families|
  {
    exists id :: id in inv.fonts && HoldsFamily(inv.fonts[id].values, inv.sources, p, i)
  }

  lemma DescribedHolds(inv: Inventory, p: Payload)
    requires Described(inv, p)
    ensures HoldsPayload(inv, p)
  {
    assert forall s :: s in p.sources ==> ShowsSource(inv, s);
    hide HoldsFamily, Wanted;
    forall i | 0 <= i < |p.families| ensures HasRow(inv, p, i) {
      WantedHolds(inv.sources, p, i);
      assert ShowsFont(inv, Wanted(inv.sources, p, i));
    }
    forall id | id in inv.fonts
      ensures exists i :: 0 <= i < |p.families| && HoldsFamily(inv.fonts[id].values, inv.sources, p, i)
    {
      var i := RowIsWanted(inv, p, id);
      WantedHolds(inv.sources, p, i);
    }
    forall id | id in inv.sources ensures inv.sources[id].values in p.sources {
      SourceIsListed(inv, p, id);
    }
  }

  lemma RowIsWanted(inv: Inventory, p: Payload, id: nat) returns (i: nat)
    requires Described(inv, p) && id in inv.fonts
    ensures i < |p.families| && inv.fonts[id].values == Wanted(inv.sources, p, i)
  {
    hide StoreInv;
    var f :| f in p.families && f.name == inv.fonts[id].values.family;
    i :| 0 <= i < |p.families| && p.families[i] == f;
    assert ShowsFont(inv, Wanted(inv.sources, p, i));
    var v := Wanted(inv.sources, p, i);
    hide Wanted;
    var other :| other in inv.fonts && inv.fonts[other].values == v;
    assert SameName(inv.fonts[id], inv.fonts[other], NamesOf(p.families));
  }

  lemma SourceIsListed(inv: Inventory, p: Payload, id: nat)
    requires Described(inv, p) && id in inv.sources
    ensures inv.sources[id].values in p.sources
  {
    var s :| s in p.sources && s.key == inv.sources[id].values.key;
    assert ShowsSource(inv, s);
  }

  lemma SameSourcesShow(a: Inventory, b: Inventory, s: PayloadSource)
    requires ShowsSource(a, s) && b.sources == a.sources
    ensures ShowsSource(b, s)
  {
  }

  // ---- repeating it ----

  lemma {:induction false} SourcesSettled(inv: Inventory, sources: seq<PayloadSource>)
    requires StoreInv(inv) && forall s :: s in sources ==> ShowsSource(inv, s)
    ensures PutSources(inv, sources) == inv
  {
    if sources != [] {
      var rest, s := sources[..|sources| - 1], sources[|sources| - 1];
      SourcesSettled(inv, rest);
      SourceSettled(inv, s);
    }
  }

  lemma SourceSettled(inv: Inventory, s: PayloadSource)
    requires StoreInv(inv) && ShowsSource(inv, s)
    ensures PutSource(inv, s) == inv
  {
    hide IdOfKey;
    var id :| id in inv.sources && inv.sources[id].values == s;
    assert IdOfKey(inv.sources, s.key) == Some(id);
    assert inv.sources[id := inv.sources[id]] == inv.sources;
  }

  lemma FontSettled(inv: Inventory, v: FontValues, names: set<string>)
    requires OnceEach(inv.fonts, names) && v.family in names && ShowsFont(inv, v)
    ensures PutFont(inv, v) == inv
  {
    hide IdOfFamily;
    var id :| id in inv.fonts && inv.fonts[id].values == v;
    var found := IdOfFamily(inv.fonts, v.family);
    assert SameName(inv.fonts[id], inv.fonts[found.value], names);
    assert inv.fonts[id := inv.fonts[id]] == inv.fonts;
  }

  lemma {:induction false} FontsSettled(inv: Inventory, p: Payload, n: nat)
    requires n <= |p.families| && OnceEach(inv.fonts, NamesOf(p.families))
    requires forall i :: 0 <= i < |p.families| ==> ShowsFont(inv, Wanted(inv.sources, p, i))
    ensures PutFonts(inv, p, n) == inv
  {
    if n > 0 {
      hide Wanted, PutFont, ShowsFont, OnceEach;
      FontsSettled(inv, p, n - 1);
      FontSettled(inv, Wanted(inv.sources, p, n - 1), NamesOf(p.families));
    }
  }

  lemma NothingToDrop(inv: Inventory, p: Payload)
    requires StoreInv(inv)
    requires forall id :: id in inv.sources ==> inv.sources[id].values.key in KeysOf(p.sources)
    requires forall id :: id in inv.fonts ==> inv.fonts[id].values.family in NamesOf(p.families)
    ensures Dropped(inv, p) == inv
  {
    hide KeysOf, NamesOf;
    var d := Dropped(inv, p);
    assert d.sources == inv.sources && d.fonts == inv.fonts && d.faces == inv.faces;
  }

  /** An inventory that already is what the payload says is left exactly as it is. */
  lemma DescribedIsSettled(inv: Inventory, p: Payload)
    requires Described(inv, p)
    ensures Put(inv, p) == inv
  {
    SourcesSettled(inv, p.sources);
    FontsSettled(inv, p, |p.families|);
    NothingToDrop(inv, p);
  }

  /** Repeating a PUT changes nothing. */
  lemma PutTwice(inv: Inventory, p: Payload)
    requires StoreInv(inv) && DistinctKeys(p.sources) && DistinctFamilies(p.families)
    requires OnceEach(inv.fonts, NamesOf(p.families))
    ensures Put(Put(inv, p), p) == Put(inv, p)
  {
    PutDescribes(inv, p);
    DescribedIsSettled(Put(inv, p), p);
  }

  /** Every source id in the result is that of an existing source. */
  lemma NoDanglingSource(inv: Inventory, p: Payload)
    requires Described(inv, p) && DistinctFamilies(p.families)
    ensures forall id :: id in inv.fonts && inv.fonts[id].values.sourceId.Some? ==>
      inv.fonts[id].values.sourceId.value in inv.sources
  {
    hide IdOfKey;
    forall id | id in inv.fonts && inv.fonts[id].values.sourceId.Some?
      ensures inv.fonts[id].values.sourceId.value in inv.sources
    {
      var name := inv.fonts[id].values.family;
      var f :| f in p.families && f.name == name;
      var i :| 0 <= i < |p.families| && p.families[i] == f;
      assert ShowsFont(inv, Wanted(inv.sources, p, i));
      var other :| other in inv.fonts && inv.fonts[other].values == Wanted(inv.sources, p, i);
      assert SameName(inv.fonts[id], inv.fonts[other], NamesOf(p.families));
    }
  }
}
