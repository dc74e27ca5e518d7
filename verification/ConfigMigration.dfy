/** The rewrite of legacy review providers in src/stagemesh/config_migration.py.

    A configuration is a JSON value; objects keep the order of their keys. Python dictionaries cannot be asked about a
    list or an object, so looking one of those up fails.
 */
module ConfigMigration {
  import opened Prelude

  datatype Json =
    | Null
    | Bool(b: bool)
    | Num(n: int)
    | Str(s: string)
    | List(items: seq<Json>)
    | Obj(fields: Fields)

  datatype Field = Field(key: string, value: Json)

  type Fields = seq<Field>

  datatype Error = RootNotObject | ProvidersNotObject | BadProvider(name: string) | Unhashable

  /** Text predicates: nothing but white space, and `REVIEW` up to case and white space. */
  datatype Text = Text(blank: string -> bool, isReview: string -> bool)

  // ---------------------------------------------------------------------------------------------------------------
  // Objects
  // ---------------------------------------------------------------------------------------------------------------

  function Get(fs: Fields, key: string): Option<Json> {
    if fs == [] then None else if fs[0].key == key then Some(fs[0].value) else Get(fs[1..], key)
  }

  predicate Has(fs: Fields, key: string) {
    Get(fs, key).Some?
  }

  /** The entry `key` when it is an object. */
  function Section(fs: Fields, key: string): Option<Fields> {
    match Get(fs, key)
    case Some(Obj(inner)) => Some(inner)
    case _ => None
  }

  /** `fs[key] = value`: in place when the key is there, at the end otherwise. */
  function Put(fs: Fields, key: string, value: Json): Fields {
    if fs == [] then [Field(key, value)]
    else if fs[0].key == key then [Field(key, value)] + fs[1..]
    else [fs[0]] + Put(fs[1..], key, value)
  }

  /** `del fs[key]`. */
  function Delete(fs: Fields, key: string): Fields {
    if fs == [] then []
    else if fs[0].key == key then Delete(fs[1..], key)
    else [fs[0]] + Delete(fs[1..], key)
  }

  function Keys(fs: Fields): (r: seq<string>)
    ensures |r| == |fs| && forall i :: 0 <= i < |fs| ==> r[i] == fs[i].key
  {
    if fs == [] then [] else [fs[0].key] + Keys(fs[1..])
  }

  lemma {:induction false} GetPut(fs: Fields, key: string, value: Json, other: string)
    ensures Get(Put(fs, key, value), other) == if other == key then Some(value) else Get(fs, other)
  {
    if fs != [] && fs[0].key != key {
      GetPut(fs[1..], key, value, other);
    }
  }

  lemma {:induction false} GetDelete(fs: Fields, key: string, other: string)
    ensures Get(Delete(fs, key), other) == if other == key then None else Get(fs, other)
  {
    if fs != [] {
      GetDelete(fs[1..], key, other);
    }
  }

  lemma {:induction false} KeysMeans(fs: Fields, key: string)
    ensures key in Keys(fs) <==> Has(fs, key)
  {
    if fs != [] {
      KeysMeans(fs[1..], key);
    }
  }

  // ---------------------------------------------------------------------------------------------------------------
  // Providers
  // ---------------------------------------------------------------------------------------------------------------

  const LEGACY_SUFFIXES := ["-review", "_review"]
  const KNOWN_BASES := {"claude", "grok"}

  function BaseFor(name: string, suffixes: seq<string>): (base: Option<string>)
    ensures base.Some? ==> base.value in KNOWN_BASES
  {
    if suffixes == [] then None
    else if EndsWith(name, suffixes[0]) && name[..|name| - |suffixes[0]|] in KNOWN_BASES then
      Some(name[..|name| - |suffixes[0]|])
    else BaseFor(name, suffixes[1..])
  }

  function LegacyReviewBase(name: string): Option<string> {
    BaseFor(name, LEGACY_SUFFIXES)
  }

  /** The base providers are not legacy names themselves. */
  lemma {:induction false} BasesAreNotLegacy(base: string)
    requires base in KNOWN_BASES
    ensures LegacyReviewBase(base).None?
  {
    assert LEGACY_SUFFIXES[1..][1..] == [];
    if base == "grok" {
      assert !EndsWith(base, "-review") && !EndsWith(base, "_review");
    } else {
      assert !EndsWith(base, "-review") && !EndsWith(base, "_review");
    }
  }

  function Command(text: Text, v: Json): Option<string> {
    if v.Str? && !text.blank(v.s) then Some(v.s) else None
  }

  function DefaultCommand(text: Text, v: Json): Option<string> {
    match v
    case Str(_) => Command(text, v)
    case Obj(fs) => if Has(fs, "command") then Command(text, Get(fs, "command").value) else None
    case _ => None
  }

  function AsObject(v: Json): Option<Fields> {
    match v
    case Str(_) => Some([Field("command", v)])
    case Obj(fs) => Some(fs)
    case _ => None
  }

  function ReviewIn(text: Text, commands: Fields): Option<string> {
    if commands == [] then None
    else if text.isReview(commands[0].key) && Command(text, commands[0].value).Some? then Command(text, commands[0].value)
    else ReviewIn(text, commands[1..])
  }

  function ExistingReview(text: Text, spec: Fields): Option<string> {
    if Has(spec, "review_command") && Command(text, Get(spec, "review_command").value).Some? then
      Command(text, Get(spec, "review_command").value)
    else match Get(spec, "commands")
         case Some(Obj(commands)) => ReviewIn(text, commands)
         case _ => None
  }

  datatype Rename = Rename(legacy: string, base: string)

  datatype Change = Moved(legacy: string, base: string) | Removed(legacy: string)

  datatype Limitation = NoBase(name: string) | NoCommand(name: string) | Differs(name: string)

  /** What is decided about one name. A move also says what becomes of the base provider, when that changes. */
  datatype Verdict =
    | NotLegacy
    | Limited(why: Limitation)
    | Bad(base: string)
    | Move(base: string, spec: Option<Fields>)

  function Judge(text: Text, providers: Fields, name: string): Verdict {
    match LegacyReviewBase(name)
    case None => NotLegacy
    case Some(base) =>
      if !Has(providers, base) then Limited(NoBase(name))
      else match (if Has(providers, name) then DefaultCommand(text, Get(providers, name).value) else None)
           case None => Limited(NoCommand(name))
           case Some(command) =>
             match AsObject(Get(providers, base).value)
             case None => Bad(base)
             case Some(spec) =>
               match ExistingReview(text, spec)
               case Some(existing) => if existing != command then Limited(Differs(name)) else Move(base, None)
               case None => Move(base, Some(Put(spec, "review_command", Str(command))))
  }

  datatype Scan = Scan(
    providers: Fields, mapping: seq<Rename>, changes: seq<Change>, limitations: seq<Limitation>)

  function ProvidersAfter(providers: Fields, name: string, base: string, spec: Option<Fields>): Fields {
    Delete(if spec.Some? then Put(providers, base, Obj(spec.value)) else providers, name)
  }

  /** One provider of the loop. */
  function ScanOne(text: Text, s: Scan, name: string): Result<Scan, Error> {
    match Judge(text, s.providers, name)
    case NotLegacy => Ok(s)
    case Limited(why) => Ok(s.(limitations := s.limitations + [why]))
    case Bad(base) => Err(BadProvider(base))
    case Move(base, spec) =>
      Ok(Scan(
           ProvidersAfter(s.providers, name, base, spec), s.mapping + [Rename(name, base)],
           s.changes + (if spec.Some? then [Moved(name, base)] else []) + [Removed(name)], s.limitations))
  }

  function ScanAll(text: Text, s: Scan, names: seq<string>): Result<Scan, Error>
    decreases names
  {
    if names == [] then Ok(s)
    else match ScanOne(text, s, names[0])
         case Err(e) => Err(e)
         case Ok(t) => ScanAll(text, t, names[1..])
  }

  // ---------------------------------------------------------------------------------------------------------------
  // References
  // ---------------------------------------------------------------------------------------------------------------

  function Lookup(mapping: seq<Rename>, name: string): Option<string> {
    if mapping == [] then None
    else if mapping[0].legacy == name then Some(mapping[0].base)
    else Lookup(mapping[1..], name)
  }

  /** `mapping.get(v, v)`. */
  function Mapped(mapping: seq<Rename>, v: Json): Result<Json, Error> {
    match v
    case List(_) => Err(Unhashable)
    case Obj(_) => Err(Unhashable)
    case Str(s) => Ok(Str(match Lookup(mapping, s) case Some(base) => base case None => s))
    case _ => Ok(v)
  }

  function NameValue(mapping: seq<Rename>): Json -> Result<Json, Error> {
    (v: Json) => Mapped(mapping, v)
  }

  /** `f` applied to every value of an object. */
  function EachValue(fs: Fields, f: Json -> Result<Json, Error>): (r: Result<Fields, Error>)
    ensures r.Ok? ==> |r.value| == |fs|
  {
    if fs == [] then Ok([])
    else match f(fs[0].value)
         case Err(e) => Err(e)
         case Ok(v) =>
           match EachValue(fs[1..], f)
           case Err(e) => Err(e)
           case Ok(rest) => Ok([Field(fs[0].key, v)] + rest)
  }

  function MappedItems(mapping: seq<Rename>, items: seq<Json>): Result<seq<Json>, Error> {
    if items == [] then Ok([])
    else match Mapped(mapping, items[0])
         case Err(e) => Err(e)
         case Ok(v) =>
           match MappedItems(mapping, items[1..])
           case Err(e) => Err(e)
           case Ok(rest) => Ok([v] + rest)
  }

  /** A list without the strings that occurred in it before. */
  function FirstOccurrences(items: seq<Json>): seq<Json> {
    if items == [] then []
    else
      var init, last := items[..|items| - 1], items[|items| - 1];
      FirstOccurrences(init) + if last.Str? && last in init then [] else [last]
  }

  /** What becomes of a pool; a pool that is not a list is left alone. */
  function PoolValue(mapping: seq<Rename>): Json -> Result<Json, Error> {
    (v: Json) =>
      if !v.List? then Ok(v)
      else match MappedItems(mapping, v.items) case Ok(items) => Ok(List(FirstOccurrences(items))) case Err(e) => Err(e)
  }

  function WithoutRenamed(mapping: seq<Rename>, weights: Fields): Fields {
    if mapping == [] then weights else WithoutRenamed(mapping[1..], Delete(weights, mapping[0].legacy))
  }

  /** `f` applied to the value of `key`, when there is one. */
  function Updated(fs: Fields, key: string, f: Json -> Result<Json, Error>): Result<Fields, Error> {
    match Get(fs, key)
    case None => Ok(fs)
    case Some(v) =>
      match f(v)
      case Err(e) => Err(e)
      case Ok(w) => Ok(Put(fs, key, w))
  }

  function RoutesValue(mapping: seq<Rename>): Json -> Result<Json, Error> {
    (v: Json) =>
      if !v.Obj? then Ok(v)
      else match EachValue(v.fields, NameValue(mapping)) case Ok(r) => Ok(Obj(r)) case Err(e) => Err(e)
  }

  function PoolsValue(mapping: seq<Rename>): Json -> Result<Json, Error> {
    (v: Json) =>
      if !v.Obj? then Ok(v)
      else match EachValue(v.fields, PoolValue(mapping)) case Ok(r) => Ok(Obj(r)) case Err(e) => Err(e)
  }

  function WeightsValue(mapping: seq<Rename>): Json -> Result<Json, Error> {
    (v: Json) => Ok(if v.Obj? then Obj(WithoutRenamed(mapping, v.fields)) else v)
  }

  function RoutingFields(mapping: seq<Rename>, routing: Fields): Result<Fields, Error> {
    match Updated(routing, "stage_routes", RoutesValue(mapping))
    case Err(e) => Err(e)
    case Ok(a) =>
      match Updated(a, "pools", PoolsValue(mapping))
      case Err(e) => Err(e)
      case Ok(b) =>
        match Updated(b, "single_agent_provider", NameValue(mapping))
        case Err(e) => Err(e)
        case Ok(c) => Updated(c, "provider_weights", WeightsValue(mapping))
  }

  function RoutingValue(mapping: seq<Rename>): Json -> Result<Json, Error> {
    (v: Json) =>
      if !v.Obj? then Ok(v)
      else match RoutingFields(mapping, v.fields) case Ok(r) => Ok(Obj(r)) case Err(e) => Err(e)
  }

  function DiagnosisValue(mapping: seq<Rename>): Json -> Result<Json, Error> {
    (v: Json) =>
      if !v.Obj? then Ok(v)
      else match Updated(v.fields, "provider", NameValue(mapping)) case Ok(r) => Ok(Obj(r)) case Err(e) => Err(e)
  }

  function References(mapping: seq<Rename>, data: Fields): Result<Fields, Error> {
    match Updated(data, "routing", RoutingValue(mapping))
    case Err(e) => Err(e)
    case Ok(a) => Updated(a, "diagnosis", DiagnosisValue(mapping))
  }

  datatype Migrated = Migrated(data: Json, changes: seq<Change>, limitations: seq<Limitation>)

  function ScanOf(text: Text, providers: Fields): Result<Scan, Error> {
    ScanAll(text, Scan(providers, [], [], []), Keys(providers))
  }

  function Migration(text: Text, data: Json): Result<Migrated, Error> {
    if !data.Obj? then Err(RootNotObject)
    else if !Has(data.fields, "providers") || Get(data.fields, "providers").value.Null? then Ok(Migrated(data, [], []))
    else if !Get(data.fields, "providers").value.Obj? then Err(ProvidersNotObject)
    else match ScanOf(text, Get(data.fields, "providers").value.fields)
         case Err(e) => Err(e)
         case Ok(s) =>
           if s.mapping == [] then Ok(Migrated(data, s.changes, s.limitations))
           else match References(s.mapping, Put(data.fields, "providers", Obj(s.providers)))
                case Err(e) => Err(e)
                case Ok(fs) => Ok(Migrated(Obj(fs), s.changes, s.limitations))
  }

  // ---------------------------------------------------------------------------------------------------------------
  // The loops
  // ---------------------------------------------------------------------------------------------------------------

  lemma {:induction false} ScanAllAppend(text: Text, s: Scan, names: seq<string>, last: string)
    ensures ScanAll(text, s, names + [last]) ==
      match ScanAll(text, s, names) case Err(e) => Err(e) case Ok(t) => ScanOne(text, t, last)
    decreases names
  {
    if names == [] {
      assert ([] + [last])[1..] == [];
    } else {
      assert (names + [last])[1..] == names[1..] + [last];
      if ScanOne(text, s, names[0]).Ok? {
        ScanAllAppend(text, ScanOne(text, s, names[0]).value, names[1..], last);
      }
    }
  }

  lemma {:induction false} ScanAllFails(text: Text, s: Scan, names: seq<string>, more: seq<string>)
    requires ScanAll(text, s, names).Err?
    ensures ScanAll(text, s, names + more) == ScanAll(text, s, names)
    decreases names
  {
    assert (names + more)[1..] == names[1..] + more;
    if ScanOne(text, s, names[0]).Ok? {
      ScanAllFails(text, ScanOne(text, s, names[0]).value, names[1..], more);
    }
  }

  /** One more name; a failure is the failure of the whole loop. */
  lemma {:induction false} ScanStep(text: Text, start: Scan, names: seq<string>, i: nat, s: Scan)
    requires i < |names| && ScanAll(text, start, names[..i]) == Ok(s)
    ensures ScanAll(text, start, names[..i + 1]) == ScanOne(text, s, names[i])
    ensures ScanOne(text, s, names[i]).Err? ==> ScanAll(text, start, names) == ScanOne(text, s, names[i])
  {
    assert names[..i + 1] == names[..i] + [names[i]];
    ScanAllAppend(text, start, names[..i], names[i]);
    if ScanOne(text, s, names[i]).Err? {
      assert names == names[..i + 1] + names[i + 1..];
      ScanAllFails(text, start, names[..i + 1], names[i + 1..]);
    }
  }

  /** The loop over `list(providers)`, which deletes and assigns entries of `providers` as it goes. */
  method ScanProviders(text: Text, original: Fields) returns (r: Result<Scan, Error>)
    ensures r == ScanOf(text, original)
  {
    var providers := original;
    var changes: seq<Change>, limitations: seq<Limitation>, legacyToBase: seq<Rename> := [], [], [];
    var names := Keys(original);
    ghost var start := Scan(original, [], [], []);
    for i := 0 to |names|
      invariant ScanAll(text, start, names[..i]) == Ok(Scan(providers, legacyToBase, changes, limitations))
    {
      var name := names[i];
      ghost var before := Scan(providers, legacyToBase, changes, limitations);
      ScanStep(text, start, names, i, before);
      match Judge(text, providers, name) {
        case NotLegacy =>
        case Limited(why) =>
          limitations := limitations + [why];
        case Bad(base) =>
          return Err(BadProvider(base));
        case Move(base, spec) =>
          assert changes + [] == changes;
          if spec.Some? {
            providers := Put(providers, base, Obj(spec.value));
            changes := changes + [Moved(name, base)];
          }
          providers := Delete(providers, name);
          legacyToBase := legacyToBase + [Rename(name, base)];
          changes := changes + [Removed(name)];
      }
      assert ScanOne(text, before, name) == Ok(Scan(providers, legacyToBase, changes, limitations));
    }
    assert names[..|names|] == names;
    return Ok(Scan(providers, legacyToBase, changes, limitations));
  }

  lemma {:induction false} MappedItemsAppend(mapping: seq<Rename>, items: seq<Json>, last: Json)
    ensures MappedItems(mapping, items + [last]) ==
      match MappedItems(mapping, items)
      case Err(e) => Err(e)
      case Ok(r) => match Mapped(mapping, last) case Err(e) => Err(e) case Ok(v) => Ok(r + [v])
  {
    if items == [] {
      assert items + [last] == [last] && [last][1..] == [];
      assert MappedItems(mapping, [last][1..]) == Ok([]);
      if Mapped(mapping, last).Ok? {
        assert [] + [Mapped(mapping, last).value] == [Mapped(mapping, last).value] + [];
      }
    } else {
      assert (items + [last])[1..] == items[1..] + [last];
      MappedItemsAppend(mapping, items[1..], last);
      if MappedItems(mapping, items).Ok? && Mapped(mapping, last).Ok? {
        var v, rest, w := Mapped(mapping, items[0]).value, MappedItems(mapping, items[1..]).value,
                          Mapped(mapping, last).value;
        assert ([v] + rest) + [w] == [v] + (rest + [w]);
      }
    }
  }

  lemma {:induction false} MappedItemsFails(mapping: seq<Rename>, items: seq<Json>, more: seq<Json>)
    requires MappedItems(mapping, items).Err?
    ensures MappedItems(mapping, items + more).Err?
  {
    assert (items + more)[1..] == items[1..] + more;
    if Mapped(mapping, items[0]).Ok? {
      MappedItemsFails(mapping, items[1..], more);
    }
  }

  lemma {:induction false} FirstOccurrencesSame(items: seq<Json>)
    ensures forall v :: v in FirstOccurrences(items) <==> v in items
    decreases |items|
  {
    if items != [] {
      FirstOccurrencesSame(items[..|items| - 1]);
      assert items == items[..|items| - 1] + [items[|items| - 1]];
    }
  }

  /** One more name; one that cannot be mapped fails the whole list. */
  lemma {:induction false} MapStep(mapping: seq<Rename>, names: seq<Json>, i: nat)
    requires i < |names| && MappedItems(mapping, names[..i]).Ok?
    ensures Mapped(mapping, names[i]).Ok? ==>
      MappedItems(mapping, names[..i + 1]) ==
        Ok(MappedItems(mapping, names[..i]).value + [Mapped(mapping, names[i]).value])
    ensures Mapped(mapping, names[i]).Err? ==> MappedItems(mapping, names).Err?
  {
    assert names[..i + 1] == names[..i] + [names[i]];
    MappedItemsAppend(mapping, names[..i], names[i]);
    if Mapped(mapping, names[i]).Err? {
      assert names == names[..i + 1] + names[i + 1..];
      MappedItemsFails(mapping, names[..i + 1], names[i + 1..]);
    }
  }

  /** What the loop has made of the first `i` names. */
  ghost predicate Listed(mapping: seq<Rename>, names: seq<Json>, i: nat, result: seq<Json>, seen: set<string>)
    requires i <= |names|
  {
    && MappedItems(mapping, names[..i]).Ok?
    && result == FirstOccurrences(MappedItems(mapping, names[..i]).value)
    && forall s :: s in seen <==> Str(s) in MappedItems(mapping, names[..i]).value
  }

  lemma {:induction false} ListedOneMore(
    mapping: seq<Rename>, names: seq<Json>, i: nat, result: seq<Json>, seen: set<string>, v: Json)
    requires i < |names| && Listed(mapping, names, i, result, seen) && Mapped(mapping, names[i]) == Ok(v)
    ensures v.Str? && v.s in seen ==> Listed(mapping, names, i + 1, result, seen)
    ensures v.Str? && v.s !in seen ==> Listed(mapping, names, i + 1, result + [v], seen + {v.s})
    ensures !v.Str? ==> Listed(mapping, names, i + 1, result + [v], seen)
  {
    var mapped := MappedItems(mapping, names[..i]).value;
    MapStep(mapping, names, i);
    OneMoreOccurrence(mapped, v);
    forall s
      ensures Str(s) in mapped + [v] <==> Str(s) in mapped || Str(s) == v
    {
    }
  }

  lemma {:induction false} OneMoreOccurrence(items: seq<Json>, last: Json)
    ensures FirstOccurrences(items + [last])
         == FirstOccurrences(items) + if last.Str? && last in items then [] else [last]
  {
    assert (items + [last])[..|items|] == items;
  }

  /** `_rewrite_provider_list`: every name replaced, and of equal strings only the first kept. */
  method RewriteProviderList(names: seq<Json>, mapping: seq<Rename>) returns (r: Result<seq<Json>, Error>)
    ensures r == match MappedItems(mapping, names)
                 case Err(_) => Err(Unhashable)
                 case Ok(items) => Ok(FirstOccurrences(items))
  {
    var result: seq<Json> := [];
    var seen: set<string> := {};
    for i := 0 to |names|
      invariant Listed(mapping, names, i, result, seen)
    {
      var rewritten := Mapped(mapping, names[i]);
      if rewritten.Err? {
        MapStep(mapping, names, i);
        return Err(Unhashable);
      }
      ListedOneMore(mapping, names, i, result, seen, rewritten.value);
      if rewritten.value.Str? {
        if rewritten.value.s in seen {
          continue;
        }
        seen := seen + {rewritten.value.s};
      }
      result := result + [rewritten.value];
    }
    assert names[..|names|] == names;
    return Ok(result);
  }

  lemma {:induction false} EachValueAppend(fs: Fields, f: Json -> Result<Json, Error>, last: Field)
    ensures EachValue(fs + [last], f) ==
      match EachValue(fs, f)
      case Err(e) => Err(e)
      case Ok(r) => match f(last.value) case Err(e) => Err(e) case Ok(v) => Ok(r + [Field(last.key, v)])
  {
    if fs == [] {
      assert fs + [last] == [last] && [last][1..] == [];
      assert EachValue([last][1..], f) == Ok([]);
      if f(last.value).Ok? {
        var only := Field(last.key, f(last.value).value);
        assert [] + [only] == [only] + [];
      }
    } else {
      assert (fs + [last])[1..] == fs[1..] + [last];
      EachValueAppend(fs[1..], f, last);
      if EachValue(fs, f).Ok? && f(last.value).Ok? {
        var first, rest := Field(fs[0].key, f(fs[0].value).value), EachValue(fs[1..], f).value;
        var only := Field(last.key, f(last.value).value);
        assert ([first] + rest) + [only] == [first] + (rest + [only]);
      }
    }
  }

  lemma {:induction false} EachValueFails(fs: Fields, f: Json -> Result<Json, Error>, more: Fields)
    requires EachValue(fs, f).Err?
    ensures EachValue(fs + more, f) == EachValue(fs, f)
  {
    assert (fs + more)[1..] == fs[1..] + more;
    if f(fs[0].value).Ok? {
      EachValueFails(fs[1..], f, more);
    }
  }

  /** Assigning the value of a key that occurs only once changes that one entry. */
  lemma {:induction false} PutAt(before: Fields, at: Field, after: Fields, value: Json)
    requires forall i :: 0 <= i < |before| ==> before[i].key != at.key
    ensures Put(before + [at] + after, at.key, value) == before + [Field(at.key, value)] + after
  {
    if before == [] {
      assert (before + [at] + after)[1..] == after;
      assert before + [Field(at.key, value)] + after == [Field(at.key, value)] + after;
    } else {
      assert (before + [at] + after)[1..] == before[1..] + [at] + after;
      PutAt(before[1..], at, after, value);
      assert [before[0]] + (before[1..] + [Field(at.key, value)] + after) == before + [Field(at.key, value)] + after;
    }
  }

  /** A loop that rewrites the values of an object stops at the first one that cannot be rewritten. */
  lemma {:induction false} RewriteStops(fs: Fields, f: Json -> Result<Json, Error>, i: nat)
    requires i < |fs| && EachValue(fs[..i], f).Ok? && f(fs[i].value).Err?
    ensures EachValue(fs, f) == Err(f(fs[i].value).error)
  {
    assert fs[..i + 1] == fs[..i] + [fs[i]];
    assert fs == fs[..i + 1] + fs[i + 1..];
    EachValueAppend(fs[..i], f, fs[i]);
    EachValueFails(fs[..i + 1], f, fs[i + 1..]);
  }

  /** One turn of such a loop, in place, the first `i` entries being done. */
  lemma {:induction false} RewriteStep(fs: Fields, f: Json -> Result<Json, Error>, i: nat, value: Json)
    requires i < |fs| && Distinct(Keys(fs)) && EachValue(fs[..i], f).Ok? && f(fs[i].value) == Ok(value)
    ensures EachValue(fs[..i + 1], f).Ok?
    ensures Put(EachValue(fs[..i], f).value + fs[i..], fs[i].key, value)
            == EachValue(fs[..i + 1], f).value + fs[i + 1..]
  {
    var done := EachValue(fs[..i], f).value;
    OneMoreValue(fs, f, i);
    DoneKeysDiffer(fs, f, i);
    PutAt(done, fs[i], fs[i + 1..], value);
    NextIsFirst(done, fs, i);
  }

  lemma {:induction false} OneMoreValue(fs: Fields, f: Json -> Result<Json, Error>, i: nat)
    requires i < |fs| && EachValue(fs[..i], f).Ok? && f(fs[i].value).Ok?
    ensures EachValue(fs[..i + 1], f) == Ok(EachValue(fs[..i], f).value + [Field(fs[i].key, f(fs[i].value).value)])
  {
    assert fs[..i + 1] == fs[..i] + [fs[i]];
    EachValueAppend(fs[..i], f, fs[i]);
  }

  lemma {:induction false} NextIsFirst(done: Fields, fs: Fields, i: nat)
    requires i < |fs|
    ensures done + fs[i..] == done + [fs[i]] + fs[i + 1..]
  {
    assert fs[i..] == [fs[i]] + fs[i + 1..];
  }

  lemma {:induction false} DoneKeysDiffer(fs: Fields, f: Json -> Result<Json, Error>, i: nat)
    requires i < |fs| && Distinct(Keys(fs)) && EachValue(fs[..i], f).Ok?
    ensures forall j :: 0 <= j < |EachValue(fs[..i], f).value| ==> EachValue(fs[..i], f).value[j].key != fs[i].key
  {
    EachValueAt(fs[..i], f);
    forall j | 0 <= j < i
      ensures fs[j].key != fs[i].key
    {
      assert Keys(fs)[j] != Keys(fs)[i];
    }
  }

  /** The loop over the stage routes, which assigns an entry only when its provider was renamed. */
  method RewriteStageRoutes(stageRoutes: Fields, mapping: seq<Rename>) returns (r: Result<Fields, Error>)
    requires Distinct(Keys(stageRoutes))
    ensures r == EachValue(stageRoutes, NameValue(mapping))
  {
    var routes := stageRoutes;
    for i := 0 to |stageRoutes|
      invariant EachValue(stageRoutes[..i], NameValue(mapping)).Ok?
      invariant routes == EachValue(stageRoutes[..i], NameValue(mapping)).value + stageRoutes[i..]
    {
      var provider := stageRoutes[i].value;
      if provider.List? || provider.Obj? {
        RewriteStops(stageRoutes, NameValue(mapping), i);
        return Err(Unhashable);
      }
      RewriteStep(stageRoutes, NameValue(mapping), i, Mapped(mapping, provider).value);
      if provider.Str? && Lookup(mapping, provider.s).Some? {
        routes := Put(routes, stageRoutes[i].key, Str(Lookup(mapping, provider.s).value));
      } else {
        PutSame(stageRoutes, NameValue(mapping), i);
      }
    }
    assert stageRoutes[..|stageRoutes|] == stageRoutes && stageRoutes[|stageRoutes|..] == [];
    assert EachValue(stageRoutes, NameValue(mapping)).value + [] == EachValue(stageRoutes, NameValue(mapping)).value;
    return Ok(routes);
  }

  /** Skipping an entry that would not change is the same as assigning it. */
  lemma {:induction false} PutSame(fs: Fields, f: Json -> Result<Json, Error>, i: nat)
    requires i < |fs| && EachValue(fs[..i], f).Ok? && f(fs[i].value) == Ok(fs[i].value)
    ensures EachValue(fs[..i + 1], f).Ok?
    ensures EachValue(fs[..i], f).value + fs[i..] == EachValue(fs[..i + 1], f).value + fs[i + 1..]
  {
    OneMoreValue(fs, f, i);
    NextIsFirst(EachValue(fs[..i], f).value, fs, i);
  }

  /** The loop over the pools; entries that are not lists, or that come out the same, are not assigned. */
  method RewritePools(original: Fields, mapping: seq<Rename>) returns (r: Result<Fields, Error>)
    requires Distinct(Keys(original))
    ensures r == EachValue(original, PoolValue(mapping))
  {
    var pools := original;
    for i := 0 to |original|
      invariant EachValue(original[..i], PoolValue(mapping)).Ok?
      invariant pools == EachValue(original[..i], PoolValue(mapping)).value + original[i..]
    {
      var names := original[i].value;
      if !names.List? {
        PutSame(original, PoolValue(mapping), i);
        continue;
      }
      MappedItemsError(mapping, names.items);
      var rewritten := RewriteProviderList(names.items, mapping);
      if rewritten.Err? {
        RewriteStops(original, PoolValue(mapping), i);
        return Err(Unhashable);
      }
      RewriteStep(original, PoolValue(mapping), i, List(rewritten.value));
      if rewritten.value != names.items {
        pools := Put(pools, original[i].key, List(rewritten.value));
      } else {
        PutSame(original, PoolValue(mapping), i);
      }
    }
    assert original[..|original|] == original && original[|original|..] == [];
    assert EachValue(original, PoolValue(mapping)).value + [] == EachValue(original, PoolValue(mapping)).value;
    return Ok(pools);
  }

  lemma {:induction false} MappedItemsError(mapping: seq<Rename>, items: seq<Json>)
    ensures MappedItems(mapping, items).Err? ==> MappedItems(mapping, items).error == Unhashable
  {
    if items != [] {
      MappedItemsError(mapping, items[1..]);
    }
  }

  /** The loop over the renames, which pops the weight of every removed provider. */
  method DropWeights(original: Fields, mapping: seq<Rename>) returns (weights: Fields)
    ensures weights == WithoutRenamed(mapping, original)
  {
    weights := original;
    for i := 0 to |mapping|
      invariant WithoutRenamed(mapping[i..], weights) == WithoutRenamed(mapping, original)
    {
      assert mapping[i..][1..] == mapping[i + 1..];
      if Has(weights, mapping[i].legacy) {
        weights := Delete(weights, mapping[i].legacy);
      } else {
        DeleteAbsent(weights, mapping[i].legacy);
      }
    }
  }

  lemma {:induction false} DeleteAbsent(fs: Fields, key: string)
    requires !Has(fs, key)
    ensures Delete(fs, key) == fs
  {
    if fs != [] {
      DeleteAbsent(fs[1..], key);
    }
  }

  /** The objects whose entries are rewritten one by one have different keys, as every dictionary does. */
  ghost predicate UniqueRouting(data: Fields) {
    Section(data, "routing").Some? ==>
      && (Section(Section(data, "routing").value, "stage_routes").Some? ==>
            Distinct(Keys(Section(Section(data, "routing").value, "stage_routes").value)))
      && (Section(Section(data, "routing").value, "pools").Some? ==>
            Distinct(Keys(Section(Section(data, "routing").value, "pools").value)))
  }

  method RewriteRouting(original: Fields, mapping: seq<Rename>) returns (r: Result<Fields, Error>)
    requires Section(original, "stage_routes").Some? ==> Distinct(Keys(Section(original, "stage_routes").value))
    requires Section(original, "pools").Some? ==> Distinct(Keys(Section(original, "pools").value))
    ensures r == RoutingFields(mapping, original)
  {
    var routing := original;
    var stageRoutes := Get(routing, "stage_routes");
    if stageRoutes.Some? && stageRoutes.value.Obj? {
      var routes := RewriteStageRoutes(stageRoutes.value.fields, mapping);
      if routes.Err? {
        return Err(routes.error);
      }
      routing := Put(routing, "stage_routes", Obj(routes.value));
    } else {
      UpdatedSame(routing, "stage_routes", RoutesValue(mapping));
    }
    ghost var a := routing;
    assert Updated(original, "stage_routes", RoutesValue(mapping)) == Ok(a);
    UpdatedKeepsOthers(original, "stage_routes", RoutesValue(mapping), "pools");
    var pools := Get(routing, "pools");
    if pools.Some? && pools.value.Obj? {
      var rewritten := RewritePools(pools.value.fields, mapping);
      if rewritten.Err? {
        return Err(rewritten.error);
      }
      routing := Put(routing, "pools", Obj(rewritten.value));
    } else {
      UpdatedSame(routing, "pools", PoolsValue(mapping));
    }
    ghost var b := routing;
    assert Updated(a, "pools", PoolsValue(mapping)) == Ok(b);
    var renamed := RewriteName(routing, "single_agent_provider", mapping);
    if renamed.Err? {
      return Err(renamed.error);
    }
    routing := renamed.value;
    var weights := Get(routing, "provider_weights");
    if weights.Some? && weights.value.Obj? {
      var left := DropWeights(weights.value.fields, mapping);
      routing := Put(routing, "provider_weights", Obj(left));
    } else {
      UpdatedSame(routing, "provider_weights", WeightsValue(mapping));
    }
    return Ok(routing);
  }

  /** An entry that names one provider. */
  method RewriteName(fs: Fields, key: string, mapping: seq<Rename>) returns (r: Result<Fields, Error>)
    ensures r == Updated(fs, key, NameValue(mapping))
  {
    var name := Get(fs, key);
    if name.None? {
      return Ok(fs);
    }
    if name.value.List? || name.value.Obj? {
      return Err(Unhashable);
    }
    if name.value.Str? && Lookup(mapping, name.value.s).Some? {
      return Ok(Put(fs, key, Str(Lookup(mapping, name.value.s).value)));
    }
    UpdatedSame(fs, key, NameValue(mapping));
    return Ok(fs);
  }

  lemma {:induction false} PutItself(fs: Fields, key: string)
    requires Has(fs, key)
    ensures Put(fs, key, Get(fs, key).value) == fs
  {
    if fs[0].key != key {
      PutItself(fs[1..], key);
    }
  }

  lemma {:induction false} UpdatedSame(fs: Fields, key: string, f: Json -> Result<Json, Error>)
    requires Has(fs, key) ==> f(Get(fs, key).value) == Ok(Get(fs, key).value)
    ensures Updated(fs, key, f) == Ok(fs)
  {
    if Has(fs, key) {
      PutItself(fs, key);
    }
  }

  /** `_rewrite_provider_references`: the routing section, then the diagnosis section. */
  method RewriteProviderReferences(original: Fields, mapping: seq<Rename>) returns (r: Result<Fields, Error>)
    requires UniqueRouting(original)
    ensures r == References(mapping, original)
  {
    var data := original;
    var routing := Get(data, "routing");
    if routing.Some? && routing.value.Obj? {
      var rewritten := RewriteRouting(routing.value.fields, mapping);
      if rewritten.Err? {
        return Err(rewritten.error);
      }
      data := Put(data, "routing", Obj(rewritten.value));
    } else {
      UpdatedSame(data, "routing", RoutingValue(mapping));
    }
    assert Updated(original, "routing", RoutingValue(mapping)) == Ok(data);
    var diagnosis := Get(data, "diagnosis");
    if diagnosis.Some? && diagnosis.value.Obj? {
      var renamed := RewriteName(diagnosis.value.fields, "provider", mapping);
      if renamed.Err? {
        return Err(renamed.error);
      }
      data := Put(data, "diagnosis", Obj(renamed.value));
    } else {
      UpdatedSame(data, "diagnosis", DiagnosisValue(mapping));
    }
    return Ok(data);
  }

  method MigrateProviderStageCommands(text: Text, data: Json) returns (r: Result<Migrated, Error>)
    requires data.Obj? ==> UniqueRouting(data.fields)
    ensures r == Migration(text, data)
  {
    if !data.Obj? {
      return Err(RootNotObject);
    }
    var providers := Get(data.fields, "providers");
    if providers.None? || providers.value.Null? {
      return Ok(Migrated(data, [], []));
    }
    if !providers.value.Obj? {
      return Err(ProvidersNotObject);
    }
    var scanned := ScanProviders(text, providers.value.fields);
    if scanned.Err? {
      return Err(scanned.error);
    }
    var s := scanned.value;
    var migrated := data;
    if s.mapping != [] {
      var fields := Put(data.fields, "providers", Obj(s.providers));
      GetPut(data.fields, "providers", Obj(s.providers), "routing");
      var rewritten := RewriteProviderReferences(fields, s.mapping);
      if rewritten.Err? {
        return Err(rewritten.error);
      }
      migrated := Obj(rewritten.value);
    }
    return Ok(Migrated(migrated, s.changes, s.limitations));
  }

  // ---------------------------------------------------------------------------------------------------------------
  // Migrating twice changes nothing
  // ---------------------------------------------------------------------------------------------------------------

  ghost predicate Settled(text: Text, providers: Fields, name: string) {
    Judge(text, providers, name).NotLegacy? || Judge(text, providers, name).Limited?
  }

  lemma {:induction false} GetAfterMove(
    providers: Fields, name: string, base: string, spec: Option<Fields>, other: string)
    requires name != base
    ensures Get(ProvidersAfter(providers, name, base, spec), other) ==
      if other == name then None
      else if other == base && spec.Some? then Some(Obj(spec.value))
      else Get(providers, other)
  {
    if spec.Some? {
      GetPut(providers, base, Obj(spec.value), other);
      GetDelete(Put(providers, base, Obj(spec.value)), name, other);
    } else {
      GetDelete(providers, name, other);
    }
  }

  /** A move never changes what was decided about another name. */
  lemma {:induction false} MoveKeepsVerdicts(text: Text, providers: Fields, name: string, other: string)
    requires Judge(text, providers, name).Move? && other != name && Settled(text, providers, other)
    ensures var v := Judge(text, providers, name);
      Judge(text, ProvidersAfter(providers, name, v.base, v.spec), other) == Judge(text, providers, other)
  {
    var v := Judge(text, providers, name);
    BasesAreNotLegacy(v.base);
    GetAfterMove(providers, name, v.base, v.spec, other);
    if LegacyReviewBase(other).Some? {
      BasesAreNotLegacy(LegacyReviewBase(other).value);
      GetAfterMove(providers, name, v.base, v.spec, LegacyReviewBase(other).value);
    }
  }

  /** After a move the name is gone. */
  lemma {:induction false} MovedIsGone(text: Text, providers: Fields, name: string)
    requires Judge(text, providers, name).Move?
    ensures var v := Judge(text, providers, name);
      !Has(ProvidersAfter(providers, name, v.base, v.spec), name)
      && forall k :: Has(ProvidersAfter(providers, name, v.base, v.spec), k) ==> Has(providers, k)
  {
    var v := Judge(text, providers, name);
    BasesAreNotLegacy(v.base);
    forall k
      ensures Has(ProvidersAfter(providers, name, v.base, v.spec), k) ==> Has(providers, k) && k != name
    {
      GetAfterMove(providers, name, v.base, v.spec, k);
    }
  }

  /** At the end of the loop every name it went over is settled or gone, and nothing else was unsettled or added. */
  lemma {:induction false} ScanSettles(text: Text, s: Scan, names: seq<string>)
    requires Distinct(names) && ScanAll(text, s, names).Ok?
    ensures var f := ScanAll(text, s, names).value;
      && (forall n :: n in names && Has(f.providers, n) ==> Settled(text, f.providers, n))
      && (forall n :: n !in names && Settled(text, s.providers, n) ==>
            Judge(text, f.providers, n) == Judge(text, s.providers, n))
      && (forall n :: Has(f.providers, n) ==> Has(s.providers, n))
    decreases names
  {
    if names != [] {
      var t := ScanOne(text, s, names[0]).value;
      ScanSettles(text, t, names[1..]);
      forall n
        ensures n in names <==> n == names[0] || n in names[1..]
      {
      }
      assert names[0] !in names[1..];
      if Judge(text, s.providers, names[0]).Move? {
        MovedIsGone(text, s.providers, names[0]);
        forall n | n != names[0] && Settled(text, s.providers, n)
          ensures Judge(text, t.providers, n) == Judge(text, s.providers, n)
        {
          MoveKeepsVerdicts(text, s.providers, names[0], n);
        }
      }
    }
  }

  lemma {:induction false} SettledScanIsQuiet(text: Text, s: Scan, names: seq<string>)
    requires forall n :: n in names ==> Settled(text, s.providers, n)
    ensures ScanAll(text, s, names).Ok?
    ensures ScanAll(text, s, names).value.(limitations := s.limitations) == s
    decreases names
  {
    if names != [] {
      assert names[0] in names;
      SettledScanIsQuiet(text, ScanOne(text, s, names[0]).value, names[1..]);
    }
  }

  /** Every move is reported, and without a move nothing changes. */
  lemma {:induction false} ChangesMeanMoves(text: Text, s: Scan, names: seq<string>)
    requires ScanAll(text, s, names).Ok?
    ensures var f := ScanAll(text, s, names).value;
      && s.mapping <= f.mapping
      && |f.mapping| - |s.mapping| <= |f.changes| - |s.changes|
      && (f.mapping == s.mapping ==> f.providers == s.providers && f.changes == s.changes)
    decreases names
  {
    if names != [] {
      ChangesMeanMoves(text, ScanOne(text, s, names[0]).value, names[1..]);
    }
  }

  lemma {:induction false} UpdatedKeepsOthers(fs: Fields, key: string, f: Json -> Result<Json, Error>, other: string)
    requires Updated(fs, key, f).Ok?
    ensures other != key ==> Get(Updated(fs, key, f).value, other) == Get(fs, other)
    ensures Get(fs, key).None? ==> Updated(fs, key, f).value == fs
    ensures Get(fs, key).Some? ==> f(Get(fs, key).value).Ok?
    ensures Get(fs, key).Some? ==> Get(Updated(fs, key, f).value, key) == Some(f(Get(fs, key).value).value)
  {
    if Get(fs, key).Some? {
      GetPut(fs, key, f(Get(fs, key).value).value, other);
      GetPut(fs, key, f(Get(fs, key).value).value, key);
    }
  }

  /** Rewriting references leaves the providers alone. */
  lemma {:induction false} ReferencesKeepProviders(mapping: seq<Rename>, data: Fields)
    requires References(mapping, data).Ok?
    ensures Get(References(mapping, data).value, "providers") == Get(data, "providers")
  {
    var a := Updated(data, "routing", RoutingValue(mapping)).value;
    UpdatedKeepsOthers(data, "routing", RoutingValue(mapping), "providers");
    UpdatedKeepsOthers(a, "diagnosis", DiagnosisValue(mapping), "providers");
  }

  /** The providers of a JSON object have different names. */
  ghost predicate UniqueProviders(data: Json) {
    data.Obj? && Get(data.fields, "providers").Some? && Get(data.fields, "providers").value.Obj? ==>
      Distinct(Keys(Get(data.fields, "providers").value.fields))
  }

  // ---------------------------------------------------------------------------------------------------------------
  // What a move keeps
  // ---------------------------------------------------------------------------------------------------------------

  /** Nothing about a provider changed, except that it may have become an object with another `review_command`. */
  ghost predicate SameButReview(before: Json, after: Json) {
    || before == after
    || (&& before.Str? && after.Obj?
        && forall key :: key != "review_command" ==>
             Get(after.fields, key) == if key == "command" then Some(before) else None)
    || (&& before.Obj? && after.Obj?
        && forall key :: key != "review_command" ==> Get(after.fields, key) == Get(before.fields, key))
  }

  ghost predicate ReviewsWith(text: Text, providers: Fields, base: string, command: string) {
    && Has(providers, base)
    && AsObject(Get(providers, base).value).Some?
    && ExistingReview(text, AsObject(Get(providers, base).value).value) == Some(command)
  }

  /** The legacy provider of `r` is gone and its base reviews with the command the legacy provider had. */
  ghost predicate Carried(text: Text, before: Fields, after: Fields, r: Rename) {
    && LegacyReviewBase(r.legacy) == Some(r.base)
    && Has(before, r.legacy) && !Has(after, r.legacy)
    && DefaultCommand(text, Get(before, r.legacy).value).Some?
    && ReviewsWith(text, after, r.base, DefaultCommand(text, Get(before, r.legacy).value).value)
  }

  /** A command string as an object has the command and nothing else. */
  lemma {:induction false} ObjectIsSame(before: Json, after: Fields)
    requires AsObject(before).Some?
    requires forall key :: key != "review_command" ==> Get(after, key) == Get(AsObject(before).value, key)
    ensures SameButReview(before, Obj(after))
  {
    if before.Str? {
      var spec := AsObject(before).value;
      assert spec[1..] == [];
      forall key | key != "review_command"
        ensures Get(after, key) == if key == "command" then Some(before) else None
      {
        assert Get(after, key) == Get(spec, key);
      }
    }
  }

  lemma {:induction false} MoveCarries(text: Text, providers: Fields, name: string)
    requires Judge(text, providers, name).Move?
    ensures var v := Judge(text, providers, name);
      Carried(text, providers, ProvidersAfter(providers, name, v.base, v.spec), Rename(name, v.base))
    ensures var v := Judge(text, providers, name);
      forall k :: k != name && Has(providers, k) ==>
        && Has(ProvidersAfter(providers, name, v.base, v.spec), k)
        && SameButReview(Get(providers, k).value, Get(ProvidersAfter(providers, name, v.base, v.spec), k).value)
        && (LegacyReviewBase(k).Some? ==>
              Get(ProvidersAfter(providers, name, v.base, v.spec), k) == Get(providers, k))
  {
    var v := Judge(text, providers, name);
    BasesAreNotLegacy(v.base);
    GetAfterMove(providers, name, v.base, v.spec, name);
    GetAfterMove(providers, name, v.base, v.spec, v.base);
    var spec := AsObject(Get(providers, v.base).value).value;
    var command := DefaultCommand(text, Get(providers, name).value).value;
    if v.spec.Some? {
      GetPut(spec, "review_command", Str(command), "review_command");
    }
    forall k | k != name && Has(providers, k)
      ensures Has(ProvidersAfter(providers, name, v.base, v.spec), k)
      ensures SameButReview(Get(providers, k).value, Get(ProvidersAfter(providers, name, v.base, v.spec), k).value)
      ensures LegacyReviewBase(k).Some? ==>
                Get(ProvidersAfter(providers, name, v.base, v.spec), k) == Get(providers, k)
    {
      GetAfterMove(providers, name, v.base, v.spec, k);
      if k == v.base && v.spec.Some? {
        forall key | key != "review_command"
          ensures Get(v.spec.value, key) == Get(spec, key)
        {
          GetPut(spec, "review_command", Str(command), key);
        }
        ObjectIsSame(Get(providers, k).value, v.spec.value);
      }
    }
  }

  /** A base that reviews with some command keeps it: later moves find it there. */
  lemma {:induction false} MoveKeepsReview(text: Text, providers: Fields, name: string, base: string, command: string)
    requires Judge(text, providers, name).Move? && base in KNOWN_BASES && ReviewsWith(text, providers, base, command)
    ensures var v := Judge(text, providers, name);
      ReviewsWith(text, ProvidersAfter(providers, name, v.base, v.spec), base, command)
  {
    var v := Judge(text, providers, name);
    BasesAreNotLegacy(v.base);
    BasesAreNotLegacy(base);
    if base == v.base {
      assert v.spec.None?;
    }
    GetAfterMove(providers, name, v.base, v.spec, base);
    assert Get(ProvidersAfter(providers, name, v.base, v.spec), base) == Get(providers, base);
  }

  lemma {:induction false} ScanKeepsReview(text: Text, s: Scan, names: seq<string>, base: string, command: string)
    requires ScanAll(text, s, names).Ok? && base in KNOWN_BASES && ReviewsWith(text, s.providers, base, command)
    ensures ReviewsWith(text, ScanAll(text, s, names).value.providers, base, command)
    decreases names
  {
    if names != [] {
      if Judge(text, s.providers, names[0]).Move? {
        MoveKeepsReview(text, s.providers, names[0], base, command);
      }
      ScanKeepsReview(text, ScanOne(text, s, names[0]).value, names[1..], base, command);
    }
  }

  lemma {:induction false} ScanAddsNoName(text: Text, s: Scan, names: seq<string>, name: string)
    requires ScanAll(text, s, names).Ok? && !Has(s.providers, name)
    ensures !Has(ScanAll(text, s, names).value.providers, name)
    decreases names
  {
    if names != [] {
      if Judge(text, s.providers, names[0]).Move? {
        MovedIsGone(text, s.providers, names[0]);
      }
      ScanAddsNoName(text, ScanOne(text, s, names[0]).value, names[1..], name);
    }
  }

  /** Over the whole loop: every recorded rename carried its command over. */
  lemma {:induction false} ScanCarries(text: Text, s: Scan, names: seq<string>)
    requires Distinct(names) && ScanAll(text, s, names).Ok?
    ensures var f := ScanAll(text, s, names).value;
      forall r :: r in f.mapping && r !in s.mapping ==> r.legacy in names && Carried(text, s.providers, f.providers, r)
    decreases names
  {
    if names != [] {
      var t := ScanOne(text, s, names[0]).value;
      var f := ScanAll(text, s, names).value;
      var v := Judge(text, s.providers, names[0]);
      ScanCarries(text, t, names[1..]);
      assert names[0] !in names[1..];
      if v.Move? {
        MoveCarries(text, s.providers, names[0]);
        MovedIsGone(text, s.providers, names[0]);
        var first := Rename(names[0], v.base);
        ScanAddsNoName(text, t, names[1..], names[0]);
        ScanKeepsReview(text, t, names[1..], v.base, DefaultCommand(text, Get(s.providers, names[0]).value).value);
        forall r | r in f.mapping && r !in s.mapping
          ensures r.legacy in names && Carried(text, s.providers, f.providers, r)
        {
          if r != first {
            assert r !in t.mapping;
            assert r.legacy != names[0];
          }
        }
      }
    }
  }

  /** Over the whole loop: a provider that was not renamed is still there, and only its `review_command` may differ. */
  lemma {:induction false} ScanKeepsOthers(text: Text, s: Scan, names: seq<string>, k: string)
    requires ScanAll(text, s, names).Ok? && Has(s.providers, k)
    requires forall r :: r in ScanAll(text, s, names).value.mapping ==> r.legacy != k
    ensures Has(ScanAll(text, s, names).value.providers, k)
    ensures SameButReview(Get(s.providers, k).value, Get(ScanAll(text, s, names).value.providers, k).value)
    decreases names
  {
    if names != [] {
      var t := ScanOne(text, s, names[0]).value;
      ChangesMeanMoves(text, t, names[1..]);
      var v := Judge(text, s.providers, names[0]);
      if v.Move? {
        assert Rename(names[0], v.base) in t.mapping;
        MoveCarries(text, s.providers, names[0]);
      }
      ScanKeepsOthers(text, t, names[1..], k);
    }
  }

  ghost predicate Reported(limitations: seq<Limitation>, name: string) {
    exists l :: l in limitations && l.name == name
  }

  ghost predicate IsRenamed(mapping: seq<Rename>, name: string) {
    exists r :: r in mapping && r.legacy == name
  }

  /** The loop does nothing about a name that it does not visit. */
  lemma {:induction false} UnvisitedStays(text: Text, s: Scan, names: seq<string>, n: string)
    requires ScanAll(text, s, names).Ok? && n !in names
    ensures var f := ScanAll(text, s, names).value;
      && (Reported(f.limitations, n) <==> Reported(s.limitations, n))
      && (IsRenamed(f.mapping, n) <==> IsRenamed(s.mapping, n))
    decreases names
  {
    if names != [] {
      var t := ScanOne(text, s, names[0]).value;
      assert names[0] in names && forall x :: x in names[1..] ==> x in names;
      assert forall l :: l in t.limitations ==> l in s.limitations || l.name == names[0];
      assert forall l :: l in s.limitations ==> l in t.limitations;
      assert forall r :: r in t.mapping ==> r in s.mapping || r.legacy == names[0];
      assert forall r :: r in s.mapping ==> r in t.mapping;
      UnvisitedStays(text, t, names[1..], n);
    }
  }

  /** Every legacy name that the loop visits is renamed or reported, and not both. */
  lemma {:induction false} VisitedIsAccountedFor(text: Text, s: Scan, names: seq<string>, n: string)
    requires ScanAll(text, s, names).Ok? && Distinct(names) && n in names && LegacyReviewBase(n).Some?
    requires !Reported(s.limitations, n) && !IsRenamed(s.mapping, n)
    ensures var f := ScanAll(text, s, names).value;
      IsRenamed(f.mapping, n) <==> !Reported(f.limitations, n)
    decreases names
  {
    var t := ScanOne(text, s, names[0]).value;
    if names[0] == n {
      assert n !in names[1..];
      UnvisitedStays(text, t, names[1..], n);
      match Judge(text, s.providers, n)
      case Limited(why) =>
        assert why in t.limitations && why.name == n;
      case Move(base, _) =>
        assert Rename(n, base) in t.mapping;
    } else {
      assert forall l :: l in t.limitations ==> l in s.limitations || l.name == names[0];
      assert forall r :: r in t.mapping ==> r in s.mapping || r.legacy == names[0];
      VisitedIsAccountedFor(text, t, names[1..], n);
    }
  }

  // ---------------------------------------------------------------------------------------------------------------
  // What the references become
  // ---------------------------------------------------------------------------------------------------------------

  ghost predicate LegacyOnly(mapping: seq<Rename>) {
    forall r :: r in mapping ==> LegacyReviewBase(r.legacy) == Some(r.base)
  }

  predicate NamesRemoved(mapping: seq<Rename>, v: Json) {
    v.Str? && Lookup(mapping, v.s).Some?
  }

  lemma {:induction false} LookupMeans(mapping: seq<Rename>, name: string)
    ensures Lookup(mapping, name).Some? <==> exists r :: r in mapping && r.legacy == name
    ensures Lookup(mapping, name).Some? ==> Rename(name, Lookup(mapping, name).value) in mapping
  {
    if mapping != [] {
      LookupMeans(mapping[1..], name);
      if Lookup(mapping, name).Some? {
        assert Rename(name, Lookup(mapping, name).value) in mapping;
      }
      forall r | r in mapping && r.legacy == name
        ensures Lookup(mapping, name).Some?
      {
        assert r == mapping[0] || r in mapping[1..];
      }
    }
  }

  /** A name that was replaced is not itself a name to replace. */
  lemma {:induction false} MappedIsClean(mapping: seq<Rename>, v: Json)
    requires LegacyOnly(mapping) && Mapped(mapping, v).Ok?
    ensures !NamesRemoved(mapping, Mapped(mapping, v).value)
  {
    if v.Str? && Lookup(mapping, v.s).Some? {
      var base := Lookup(mapping, v.s).value;
      LookupMeans(mapping, v.s);
      BasesAreNotLegacy(base);
      LookupMeans(mapping, base);
    }
  }

  lemma {:induction false} EachValueAt(fs: Fields, f: Json -> Result<Json, Error>)
    requires EachValue(fs, f).Ok?
    ensures var r := EachValue(fs, f).value;
      |r| == |fs| && forall i :: 0 <= i < |fs| ==> r[i].key == fs[i].key && f(fs[i].value) == Ok(r[i].value)
  {
    if fs != [] {
      EachValueAt(fs[1..], f);
    }
  }

  lemma {:induction false} MappedItemsAt(mapping: seq<Rename>, items: seq<Json>)
    requires MappedItems(mapping, items).Ok?
    ensures var r := MappedItems(mapping, items).value;
      |r| == |items| && forall i :: 0 <= i < |items| ==> Mapped(mapping, items[i]) == Ok(r[i])
  {
    if items != [] {
      MappedItemsAt(mapping, items[1..]);
    }
  }

  lemma {:induction false} WithoutRenamedMeans(mapping: seq<Rename>, weights: Fields, key: string)
    ensures Get(WithoutRenamed(mapping, weights), key) ==
      if Lookup(mapping, key).Some? then None else Get(weights, key)
    decreases mapping
  {
    if mapping != [] {
      GetDelete(weights, mapping[0].legacy, key);
      WithoutRenamedMeans(mapping[1..], Delete(weights, mapping[0].legacy), key);
      if mapping[0].legacy == key {
        WithoutRenamedStays(mapping[1..], Delete(weights, mapping[0].legacy), key);
      }
    }
  }

  lemma {:induction false} WithoutRenamedStays(mapping: seq<Rename>, weights: Fields, key: string)
    requires !Has(weights, key)
    ensures !Has(WithoutRenamed(mapping, weights), key)
    decreases mapping
  {
    if mapping != [] {
      GetDelete(weights, mapping[0].legacy, key);
      WithoutRenamedStays(mapping[1..], Delete(weights, mapping[0].legacy), key);
    }
  }

  /** Of equal strings only the first is kept: strings are distinct, nothing is lost, and a longer list only adds. */
  lemma {:induction false} FirstOccurrencesMeans(items: seq<Json>, more: seq<Json>)
    ensures var r := FirstOccurrences(items);
      && (forall v :: v in r <==> v in items)
      && (forall i, j :: 0 <= i < j < |r| && r[i].Str? ==> r[i] != r[j])
      && r <= FirstOccurrences(items + more)
    decreases |items| + |more|, |more|
  {
    FirstOccurrencesSame(items);
    if more != [] {
      var init := more[..|more| - 1];
      FirstOccurrencesMeans(items, init);
      assert (items + more)[..|items + more| - 1] == items + init;
    } else {
      assert items + more == items;
      if items != [] {
        FirstOccurrencesMeans(items[..|items| - 1], []);
        FirstOccurrencesSame(items[..|items| - 1]);
      }
    }
  }

  lemma {:induction false} ImageHas(mapping: seq<Rename>, items: seq<Json>, v: Json)
    requires MappedItems(mapping, items).Ok?
    ensures v in MappedItems(mapping, items).value
       <==> exists k :: 0 <= k < |items| && Mapped(mapping, items[k]) == Ok(v)
  {
    var image := MappedItems(mapping, items).value;
    MappedItemsAt(mapping, items);
    if v in image {
      var k :| 0 <= k < |image| && image[k] == v;
      assert Mapped(mapping, items[k]) == Ok(v);
    }
  }

  /** What becomes of one list: a name is in it exactly when it replaces a name of the old list, and no name twice. */
  lemma {:induction false} ListBecomesDuplicateFree(mapping: seq<Rename>, items: seq<Json>)
    requires MappedItems(mapping, items).Ok?
    ensures var after := FirstOccurrences(MappedItems(mapping, items).value);
      && (forall v :: v in after <==> exists k :: 0 <= k < |items| && Mapped(mapping, items[k]) == Ok(v))
      && (forall k, l :: 0 <= k < l < |after| && after[k].Str? ==> after[k] != after[l])
  {
    FirstOccurrencesMeans(MappedItems(mapping, items).value, []);
    forall v
      ensures v in MappedItems(mapping, items).value
         <==> exists k :: 0 <= k < |items| && Mapped(mapping, items[k]) == Ok(v)
    {
      ImageHas(mapping, items, v);
    }
  }

  /** Its names come in the order in which they first occur: what a beginning of the old list becomes is a beginning of
      what the whole list becomes. */
  lemma {:induction false} ListKeepsFirstOccurrences(mapping: seq<Rename>, items: seq<Json>, n: nat)
    requires MappedItems(mapping, items).Ok? && n <= |items|
    ensures MappedItems(mapping, items[..n]).Ok?
    ensures FirstOccurrences(MappedItems(mapping, items[..n]).value)
         <= FirstOccurrences(MappedItems(mapping, items).value)
  {
    var image := MappedItems(mapping, items).value;
    MappedBeginning(mapping, items, n);
    FirstOccurrencesMeans(image[..n], image[n..]);
    assert image[..n] + image[n..] == image;
  }

  /** Every pool that is a list becomes the duplicate-free image of the old one, in the order in which its names first
      occur. */
  lemma {:induction false} PoolsAreDuplicateFreeImages(mapping: seq<Rename>, pools: Fields, i: nat, n: nat)
    requires EachValue(pools, PoolValue(mapping)).Ok? && i < |pools| && pools[i].value.List?
    requires n <= |pools[i].value.items|
    ensures var before, after := pools[i].value.items, EachValue(pools, PoolValue(mapping)).value[i];
      && after.key == pools[i].key && after.value.List?
      && (forall v :: v in after.value.items <==> exists k :: 0 <= k < |before| && Mapped(mapping, before[k]) == Ok(v))
      && (forall k, l :: 0 <= k < l < |after.value.items| && after.value.items[k].Str? ==>
           after.value.items[k] != after.value.items[l])
      && MappedItems(mapping, before[..n]).Ok?
      && FirstOccurrences(MappedItems(mapping, before[..n]).value) <= after.value.items
  {
    var before := pools[i].value.items;
    EachValueAt(pools, PoolValue(mapping));
    assert PoolValue(mapping)(pools[i].value) == Ok(EachValue(pools, PoolValue(mapping)).value[i].value);
    ListBecomesDuplicateFree(mapping, before);
    ListKeepsFirstOccurrences(mapping, before, n);
  }

  lemma {:induction false} MappedBeginning(mapping: seq<Rename>, items: seq<Json>, n: nat)
    requires MappedItems(mapping, items).Ok? && n <= |items|
    ensures |MappedItems(mapping, items).value| == |items|
    ensures MappedItems(mapping, items[..n]) == Ok(MappedItems(mapping, items).value[..n])
  {
    MappedItemsAt(mapping, items);
    var whole := MappedItems(mapping, items).value;
    if n == 0 {
      assert items[..0] == [] && whole[..0] == [];
    } else {
      var rest := MappedItems(mapping, items[1..]).value;
      MappedBeginning(mapping, items[1..], n - 1);
      assert items[..n][1..] == items[1..][..n - 1];
      assert whole == [whole[0]] + rest;
      assert whole[..n] == [whole[0]] + rest[..n - 1];
    }
  }

  /** Migrating a migrated configuration returns it unchanged, with no changes. */
  lemma {:induction false} MigrationIsIdempotent(text: Text, data: Json)
    requires UniqueProviders(data) && Migration(text, data).Ok?
    ensures var m := Migration(text, data).value;
      && Migration(text, m.data).Ok?
      && Migration(text, m.data).value.data == m.data
      && Migration(text, m.data).value.changes == []
    ensures Migration(text, data).value.changes == [] <==> Migration(text, data).value.data == data
  {
    var m := Migration(text, data).value;
    if Has(data.fields, "providers") && Get(data.fields, "providers").value.Obj? {
      var original := Get(data.fields, "providers").value.fields;
      var start := Scan(original, [], [], []);
      var s := ScanOf(text, original).value;
      ChangesMeanMoves(text, start, Keys(original));
      ScanSettles(text, start, Keys(original));
      if s.mapping != [] {
        GetPut(data.fields, "providers", Obj(s.providers), "providers");
        ReferencesKeepProviders(s.mapping, Put(data.fields, "providers", Obj(s.providers)));
      }
      assert Get(m.data.fields, "providers") == Some(Obj(s.providers));
      forall n | n in Keys(s.providers)
        ensures Settled(text, s.providers, n)
      {
        KeysMeans(s.providers, n);
        KeysMeans(original, n);
      }
      SettledScanIsQuiet(text, Scan(s.providers, [], [], []), Keys(s.providers));
      if s.mapping != [] {
        ScanCarries(text, start, Keys(original));
        assert s.mapping[0] in s.mapping && Carried(text, original, s.providers, s.mapping[0]);
      }
    }
  }

  // ---------------------------------------------------------------------------------------------------------------
  // Nothing is lost and nothing dangles
  // ---------------------------------------------------------------------------------------------------------------

  function ProvidersOf(data: Json): Option<Fields> {
    if data.Obj? && Get(data.fields, "providers").Some? && Get(data.fields, "providers").value.Obj? then
      Some(Get(data.fields, "providers").value.fields)
    else None
  }

  /** The provider `name` was there before and is not there after. */
  ghost predicate Removes(before: Json, after: Json, name: string) {
    && ProvidersOf(before).Some? && ProvidersOf(after).Some?
    && Has(ProvidersOf(before).value, name) && !Has(ProvidersOf(after).value, name)
  }

  lemma {:induction false} ScanOfMigration(text: Text, data: Json) returns (s: Scan)
    requires UniqueProviders(data) && Migration(text, data).Ok? && ProvidersOf(data).Some?
    ensures ScanOf(text, ProvidersOf(data).value) == Ok(s) && LegacyOnly(s.mapping)
    ensures ProvidersOf(Migration(text, data).value.data) == Some(s.providers)
    ensures forall r :: r in s.mapping ==> Carried(text, ProvidersOf(data).value, s.providers, r)
    ensures forall n :: Removes(data, Migration(text, data).value.data, n) <==> Lookup(s.mapping, n).Some?
    ensures s.mapping != [] ==>
      References(s.mapping, Put(data.fields, "providers", Obj(s.providers)))
      == Ok(Migration(text, data).value.data.fields)
  {
    var original := ProvidersOf(data).value;
    var start := Scan(original, [], [], []);
    s := ScanOf(text, original).value;
    ChangesMeanMoves(text, start, Keys(original));
    ScanCarries(text, start, Keys(original));
    if s.mapping != [] {
      GetPut(data.fields, "providers", Obj(s.providers), "providers");
      ReferencesKeepProviders(s.mapping, Put(data.fields, "providers", Obj(s.providers)));
    }
    forall n
      ensures Has(original, n) && !Has(s.providers, n) <==> Lookup(s.mapping, n).Some?
    {
      LookupMeans(s.mapping, n);
      if Lookup(s.mapping, n).None? && Has(original, n) {
        ScanKeepsOthers(text, start, Keys(original), n);
      }
    }
  }

  /** A provider disappears only when it was a legacy review provider whose base is there, and then the base reviews
      with the command it had; every other provider stays, and at most its `review_command` is new. */
  lemma {:induction false} RemovedCommandsAreCarriedOver(text: Text, data: Json, name: string)
    requires UniqueProviders(data) && Migration(text, data).Ok?
    ensures var after := Migration(text, data).value.data;
      Removes(data, after, name) ==>
        && LegacyReviewBase(name).Some?
        && DefaultCommand(text, Get(ProvidersOf(data).value, name).value).Some?
        && ReviewsWith(text, ProvidersOf(after).value, LegacyReviewBase(name).value,
                       DefaultCommand(text, Get(ProvidersOf(data).value, name).value).value)
    ensures var after := Migration(text, data).value.data;
      ProvidersOf(data).Some? ==>
        && ProvidersOf(after).Some?
        && (Has(ProvidersOf(data).value, name) && !Removes(data, after, name) ==>
              SameButReview(Get(ProvidersOf(data).value, name).value, Get(ProvidersOf(after).value, name).value))
        && (!Has(ProvidersOf(data).value, name) ==> !Has(ProvidersOf(after).value, name))
  {
    if ProvidersOf(data).Some? {
      var s := ScanOfMigration(text, data);
      var original := ProvidersOf(data).value;
      var start := Scan(original, [], [], []);
      LookupMeans(s.mapping, name);
      if !Has(original, name) {
        ScanAddsNoName(text, start, Keys(original), name);
      } else if Lookup(s.mapping, name).None? {
        ScanKeepsOthers(text, start, Keys(original), name);
      } else {
        assert Carried(text, original, s.providers, Rename(name, Lookup(s.mapping, name).value));
      }
    }
  }

  /** Every legacy review provider is removed or reported, and not both: none is silently left behind. */
  lemma {:induction false} EveryLegacyProviderIsAccountedFor(text: Text, data: Json, name: string)
    requires UniqueProviders(data) && Migration(text, data).Ok? && ProvidersOf(data).Some?
    requires Has(ProvidersOf(data).value, name) && LegacyReviewBase(name).Some?
    ensures Removes(data, Migration(text, data).value.data, name)
       <==> !Reported(Migration(text, data).value.limitations, name)
  {
    var s := ScanOfMigration(text, data);
    var original := ProvidersOf(data).value;
    KeysMeans(original, name);
    LookupMeans(s.mapping, name);
    VisitedIsAccountedFor(text, Scan(original, [], [], []), Keys(original), name);
  }

  /** `name` is not mentioned by a stage route, in a pool, as the single agent or with a weight. */
  ghost predicate RoutingForgets(routing: Fields, name: string) {
    && (Section(routing, "stage_routes").Some? ==>
          forall route :: route in Section(routing, "stage_routes").value ==> route.value != Str(name))
    && (Section(routing, "pools").Some? ==>
          forall pool :: pool in Section(routing, "pools").value && pool.value.List? ==> Str(name) !in pool.value.items)
    && Get(routing, "single_agent_provider") != Some(Str(name))
    && (Section(routing, "provider_weights").Some? ==> !Has(Section(routing, "provider_weights").value, name))
  }

  ghost predicate Forgets(data: Fields, name: string) {
    && (Section(data, "routing").Some? ==> RoutingForgets(Section(data, "routing").value, name))
    && (Section(data, "diagnosis").Some? ==> Get(Section(data, "diagnosis").value, "provider") != Some(Str(name)))
  }

  lemma {:induction false} RoutesForget(mapping: seq<Rename>, routes: Fields, name: string)
    requires LegacyOnly(mapping) && EachValue(routes, NameValue(mapping)).Ok? && Lookup(mapping, name).Some?
    ensures forall route :: route in EachValue(routes, NameValue(mapping)).value ==> route.value != Str(name)
  {
    EachValueAt(routes, NameValue(mapping));
    var r := EachValue(routes, NameValue(mapping)).value;
    forall i | 0 <= i < |r|
      ensures r[i].value != Str(name)
    {
      MappedIsClean(mapping, routes[i].value);
    }
  }

  lemma {:induction false} PoolForgets(mapping: seq<Rename>, items: seq<Json>, name: string)
    requires LegacyOnly(mapping) && MappedItems(mapping, items).Ok? && Lookup(mapping, name).Some?
    ensures Str(name) !in FirstOccurrences(MappedItems(mapping, items).value)
  {
    var mapped := MappedItems(mapping, items).value;
    MappedItemsAt(mapping, items);
    FirstOccurrencesSame(mapped);
    forall i | 0 <= i < |items|
      ensures mapped[i] != Str(name)
    {
      MappedIsClean(mapping, items[i]);
    }
  }

  lemma {:induction false} PoolsForget(mapping: seq<Rename>, pools: Fields, name: string)
    requires LegacyOnly(mapping) && EachValue(pools, PoolValue(mapping)).Ok? && Lookup(mapping, name).Some?
    ensures forall pool :: pool in EachValue(pools, PoolValue(mapping)).value && pool.value.List? ==>
      Str(name) !in pool.value.items
  {
    EachValueAt(pools, PoolValue(mapping));
    var r := EachValue(pools, PoolValue(mapping)).value;
    forall i | 0 <= i < |r| && r[i].value.List?
      ensures Str(name) !in r[i].value.items
    {
      assert PoolValue(mapping)(pools[i].value) == Ok(r[i].value);
      PoolForgets(mapping, pools[i].value.items, name);
    }
  }

  /** One entry before and after `f` was applied to it. */
  ghost predicate Rewritten(before: Option<Json>, f: Json -> Result<Json, Error>, after: Option<Json>) {
    match before
    case None => after.None?
    case Some(v) => f(v).Ok? && after == Some(f(v).value)
  }

  lemma {:induction false} UpdatedRewrites(fs: Fields, key: string, f: Json -> Result<Json, Error>, other: string)
    requires Updated(fs, key, f).Ok?
    ensures other != key ==> Get(Updated(fs, key, f).value, other) == Get(fs, other)
    ensures other == key ==> Rewritten(Get(fs, other), f, Get(Updated(fs, key, f).value, other))
  {
    UpdatedKeepsOthers(fs, key, f, other);
  }

  /** Each of the four entries of the routing section is rewritten by its own rule, and no other entry changes. */
  lemma {:induction false} RoutingIsTheImage(mapping: seq<Rename>, routing: Fields, key: string)
    requires RoutingFields(mapping, routing).Ok?
    ensures var before, after := Get(routing, key), Get(RoutingFields(mapping, routing).value, key);
      if key == "stage_routes" then Rewritten(before, RoutesValue(mapping), after)
      else if key == "pools" then Rewritten(before, PoolsValue(mapping), after)
      else if key == "single_agent_provider" then Rewritten(before, NameValue(mapping), after)
      else if key == "provider_weights" then Rewritten(before, WeightsValue(mapping), after)
      else after == before
  {
    var a := Updated(routing, "stage_routes", RoutesValue(mapping)).value;
    var b := Updated(a, "pools", PoolsValue(mapping)).value;
    var c := Updated(b, "single_agent_provider", NameValue(mapping)).value;
    UpdatedRewrites(routing, "stage_routes", RoutesValue(mapping), key);
    UpdatedRewrites(a, "pools", PoolsValue(mapping), key);
    UpdatedRewrites(b, "single_agent_provider", NameValue(mapping), key);
    UpdatedRewrites(c, "provider_weights", WeightsValue(mapping), key);
  }

  lemma {:induction false} StageRoutesForget(mapping: seq<Rename>, routing: Fields, name: string)
    requires LegacyOnly(mapping) && RoutingFields(mapping, routing).Ok? && Lookup(mapping, name).Some?
    ensures var routes := Section(RoutingFields(mapping, routing).value, "stage_routes");
      routes.Some? ==> forall route :: route in routes.value ==> route.value != Str(name)
  {
    RoutingIsTheImage(mapping, routing, "stage_routes");
    if Section(routing, "stage_routes").Some? {
      RoutesForget(mapping, Section(routing, "stage_routes").value, name);
    }
  }

  lemma {:induction false} AllPoolsForget(mapping: seq<Rename>, routing: Fields, name: string)
    requires LegacyOnly(mapping) && RoutingFields(mapping, routing).Ok? && Lookup(mapping, name).Some?
    ensures var pools := Section(RoutingFields(mapping, routing).value, "pools");
      pools.Some? ==> forall pool :: pool in pools.value && pool.value.List? ==> Str(name) !in pool.value.items
  {
    RoutingIsTheImage(mapping, routing, "pools");
    if Section(routing, "pools").Some? {
      PoolsForget(mapping, Section(routing, "pools").value, name);
    }
  }

  lemma {:induction false} SingleAgentForgets(mapping: seq<Rename>, routing: Fields, name: string)
    requires LegacyOnly(mapping) && RoutingFields(mapping, routing).Ok? && Lookup(mapping, name).Some?
    ensures Get(RoutingFields(mapping, routing).value, "single_agent_provider") != Some(Str(name))
  {
    RoutingIsTheImage(mapping, routing, "single_agent_provider");
    if Get(routing, "single_agent_provider").Some? {
      MappedIsClean(mapping, Get(routing, "single_agent_provider").value);
    }
  }

  lemma {:induction false} WeightsForget(mapping: seq<Rename>, routing: Fields, name: string)
    requires RoutingFields(mapping, routing).Ok? && Lookup(mapping, name).Some?
    ensures var weights := Section(RoutingFields(mapping, routing).value, "provider_weights");
      weights.Some? ==> !Has(weights.value, name)
  {
    RoutingIsTheImage(mapping, routing, "provider_weights");
    if Section(routing, "provider_weights").Some? {
      WithoutRenamedMeans(mapping, Section(routing, "provider_weights").value, name);
    }
  }

  lemma {:induction false} RoutingForgetsRemoved(mapping: seq<Rename>, routing: Fields, name: string)
    requires LegacyOnly(mapping) && RoutingFields(mapping, routing).Ok? && Lookup(mapping, name).Some?
    ensures RoutingForgets(RoutingFields(mapping, routing).value, name)
  {
    StageRoutesForget(mapping, routing, name);
    AllPoolsForget(mapping, routing, name);
    SingleAgentForgets(mapping, routing, name);
    WeightsForget(mapping, routing, name);
  }

  lemma {:induction false} DiagnosisForgetsRemoved(mapping: seq<Rename>, diagnosis: Fields, name: string)
    requires LegacyOnly(mapping) && Lookup(mapping, name).Some?
    requires Updated(diagnosis, "provider", NameValue(mapping)).Ok?
    ensures Get(Updated(diagnosis, "provider", NameValue(mapping)).value, "provider") != Some(Str(name))
  {
    UpdatedKeepsOthers(diagnosis, "provider", NameValue(mapping), "provider");
    if Get(diagnosis, "provider").Some? {
      MappedIsClean(mapping, Get(diagnosis, "provider").value);
    }
  }

  lemma {:induction false} RoutingSectionForgets(mapping: seq<Rename>, data: Fields, name: string)
    requires LegacyOnly(mapping) && References(mapping, data).Ok? && Lookup(mapping, name).Some?
    ensures var routing := Section(References(mapping, data).value, "routing");
      routing.Some? ==> RoutingForgets(routing.value, name)
  {
    var a := Updated(data, "routing", RoutingValue(mapping)).value;
    UpdatedKeepsOthers(data, "routing", RoutingValue(mapping), "routing");
    UpdatedKeepsOthers(a, "diagnosis", DiagnosisValue(mapping), "routing");
    if Section(data, "routing").Some? {
      RoutingForgetsRemoved(mapping, Section(data, "routing").value, name);
    }
  }

  lemma {:induction false} DiagnosisSectionForgets(mapping: seq<Rename>, data: Fields, name: string)
    requires LegacyOnly(mapping) && References(mapping, data).Ok? && Lookup(mapping, name).Some?
    ensures var diagnosis := Section(References(mapping, data).value, "diagnosis");
      diagnosis.Some? ==> Get(diagnosis.value, "provider") != Some(Str(name))
  {
    var a := Updated(data, "routing", RoutingValue(mapping)).value;
    UpdatedKeepsOthers(a, "diagnosis", DiagnosisValue(mapping), "diagnosis");
    if Section(a, "diagnosis").Some? {
      DiagnosisForgetsRemoved(mapping, Section(a, "diagnosis").value, name);
    }
  }

  lemma {:induction false} ReferencesForgetRemoved(mapping: seq<Rename>, data: Fields, name: string)
    requires LegacyOnly(mapping) && References(mapping, data).Ok? && Lookup(mapping, name).Some?
    ensures Forgets(References(mapping, data).value, name)
  {
    RoutingSectionForgets(mapping, data, name);
    DiagnosisSectionForgets(mapping, data, name);
  }

  /** No stage route, pool, single agent, weight or diagnosis names a provider that the migration removed. */
  lemma {:induction false} NothingDangles(text: Text, data: Json, name: string)
    requires UniqueProviders(data) && Migration(text, data).Ok?
    requires Removes(data, Migration(text, data).value.data, name)
    ensures Forgets(Migration(text, data).value.data.fields, name)
  {
    var s := ScanOfMigration(text, data);
    ReferencesForgetRemoved(s.mapping, Put(data.fields, "providers", Obj(s.providers)), name);
  }

  // ---------------------------------------------------------------------------------------------------------------
  // When the migration fails
  // ---------------------------------------------------------------------------------------------------------------

  /** What a dictionary can be asked about. */
  predicate Hashable(v: Json) {
    !v.List? && !v.Obj?
  }

  ghost predicate AllHashable(items: seq<Json>) {
    forall v :: v in items ==> Hashable(v)
  }

  lemma {:induction false} MappedItemsExactlyWhen(mapping: seq<Rename>, items: seq<Json>)
    ensures MappedItems(mapping, items).Ok? <==> AllHashable(items)
  {
    if items != [] {
      MappedItemsExactlyWhen(mapping, items[1..]);
      assert items[0] in items && forall v :: v in items <==> v == items[0] || v in items[1..];
    }
  }

  lemma {:induction false} EachValueExactlyWhen(fs: Fields, f: Json -> Result<Json, Error>)
    ensures EachValue(fs, f).Ok? <==> forall x :: x in fs ==> f(x.value).Ok?
  {
    if fs != [] {
      EachValueExactlyWhen(fs[1..], f);
      assert fs[0] in fs && forall x :: x in fs <==> x == fs[0] || x in fs[1..];
    }
  }

  ghost predicate RoutesHashable(routes: Fields) {
    forall route :: route in routes ==> Hashable(route.value)
  }

  ghost predicate PoolsHashable(pools: Fields) {
    forall pool :: pool in pools && pool.value.List? ==> AllHashable(pool.value.items)
  }

  lemma {:induction false} RoutesExactlyWhen(mapping: seq<Rename>, routes: Fields)
    ensures EachValue(routes, NameValue(mapping)).Ok? <==> RoutesHashable(routes)
  {
    EachValueExactlyWhen(routes, NameValue(mapping));
  }

  lemma {:induction false} PoolsExactlyWhen(mapping: seq<Rename>, pools: Fields)
    ensures EachValue(pools, PoolValue(mapping)).Ok? <==> PoolsHashable(pools)
  {
    EachValueExactlyWhen(pools, PoolValue(mapping));
    forall pool | pool in pools
      ensures PoolValue(mapping)(pool.value).Ok? <==> (pool.value.List? ==> AllHashable(pool.value.items))
    {
      if pool.value.List? {
        MappedItemsExactlyWhen(mapping, pool.value.items);
      }
    }
  }

  /** Every stage route, item of a pool and single agent can be looked up. */
  ghost predicate RoutingHashable(routing: Fields) {
    && (Section(routing, "stage_routes").Some? ==> RoutesHashable(Section(routing, "stage_routes").value))
    && (Section(routing, "pools").Some? ==> PoolsHashable(Section(routing, "pools").value))
    && (Has(routing, "single_agent_provider") ==> Hashable(Get(routing, "single_agent_provider").value))
  }

  /** And so can the provider of the diagnosis section. */
  ghost predicate ReferencesHashable(data: Fields) {
    && (Section(data, "routing").Some? ==> RoutingHashable(Section(data, "routing").value))
    && (Section(data, "diagnosis").Some? && Has(Section(data, "diagnosis").value, "provider") ==>
          Hashable(Get(Section(data, "diagnosis").value, "provider").value))
  }

  lemma {:induction false} UpdatedExactlyWhen(
    fs: Fields, key: string, f: Json -> Result<Json, Error>, other: string)
    ensures Updated(fs, key, f).Ok? <==> (Has(fs, key) ==> f(Get(fs, key).value).Ok?)
    ensures Updated(fs, key, f).Ok? && other != key ==> Get(Updated(fs, key, f).value, other) == Get(fs, other)
  {
    if Updated(fs, key, f).Ok? {
      UpdatedKeepsOthers(fs, key, f, other);
    }
  }

  lemma {:induction false} RoutingExactlyWhen(mapping: seq<Rename>, routing: Fields)
    ensures RoutingFields(mapping, routing).Ok? <==> RoutingHashable(routing)
  {
    var first := Updated(routing, "stage_routes", RoutesValue(mapping));
    UpdatedExactlyWhen(routing, "stage_routes", RoutesValue(mapping), "pools");
    UpdatedExactlyWhen(routing, "stage_routes", RoutesValue(mapping), "single_agent_provider");
    if Section(routing, "stage_routes").Some? {
      RoutesExactlyWhen(mapping, Section(routing, "stage_routes").value);
    }
    if first.Ok? {
      PoolsAndAgentExactlyWhen(mapping, first.value);
    }
  }

  lemma {:induction false} PoolsAndAgentExactlyWhen(mapping: seq<Rename>, a: Fields)
    ensures (match Updated(a, "pools", PoolsValue(mapping))
             case Err(_) => false
             case Ok(b) =>
               match Updated(b, "single_agent_provider", NameValue(mapping))
               case Err(_) => false
               case Ok(c) => Updated(c, "provider_weights", WeightsValue(mapping)).Ok?)
       <==> (&& (Section(a, "pools").Some? ==> PoolsHashable(Section(a, "pools").value))
             && (Has(a, "single_agent_provider") ==> Hashable(Get(a, "single_agent_provider").value)))
  {
    UpdatedExactlyWhen(a, "pools", PoolsValue(mapping), "single_agent_provider");
    if Section(a, "pools").Some? {
      PoolsExactlyWhen(mapping, Section(a, "pools").value);
    }
  }

  lemma {:induction false} ReferencesExactlyWhen(mapping: seq<Rename>, data: Fields)
    ensures References(mapping, data).Ok? <==> ReferencesHashable(data)
  {
    UpdatedExactlyWhen(data, "routing", RoutingValue(mapping), "diagnosis");
    if Section(data, "routing").Some? {
      RoutingExactlyWhen(mapping, Section(data, "routing").value);
    }
    if Section(data, "diagnosis").Some? {
      UpdatedExactlyWhen(Section(data, "diagnosis").value, "provider", NameValue(mapping), "provider");
    }
  }

  /** The only error a rewrite of references has. */
  predicate FailsUnhashable<T>(r: Result<T, Error>) {
    r.Err? ==> r.error == Unhashable
  }

  lemma {:induction false} EachValueError(fs: Fields, f: Json -> Result<Json, Error>)
    requires forall v :: FailsUnhashable(f(v))
    ensures FailsUnhashable(EachValue(fs, f))
  {
    if fs != [] {
      EachValueError(fs[1..], f);
      assert FailsUnhashable(f(fs[0].value));
    }
  }

  lemma {:induction false} RulesFailUnhashable(mapping: seq<Rename>, v: Json)
    ensures FailsUnhashable(RoutesValue(mapping)(v)) && FailsUnhashable(PoolsValue(mapping)(v))
  {
    forall w
      ensures FailsUnhashable(NameValue(mapping)(w)) && FailsUnhashable(PoolValue(mapping)(w))
    {
      if w.List? {
        MappedItemsError(mapping, w.items);
      }
    }
    if v.Obj? {
      EachValueError(v.fields, NameValue(mapping));
      EachValueError(v.fields, PoolValue(mapping));
    }
  }

  lemma {:induction false} UpdatedError(fs: Fields, key: string, f: Json -> Result<Json, Error>)
    requires forall v :: FailsUnhashable(f(v))
    ensures FailsUnhashable(Updated(fs, key, f))
  {
    if Has(fs, key) {
      assert FailsUnhashable(f(Get(fs, key).value));
    }
  }

  lemma {:induction false} RoutingError(mapping: seq<Rename>, routing: Fields)
    ensures FailsUnhashable(RoutingFields(mapping, routing))
  {
    forall v
      ensures FailsUnhashable(RoutesValue(mapping)(v)) && FailsUnhashable(PoolsValue(mapping)(v))
    {
      RulesFailUnhashable(mapping, v);
    }
    UpdatedError(routing, "stage_routes", RoutesValue(mapping));
    if Updated(routing, "stage_routes", RoutesValue(mapping)).Ok? {
      UpdatedError(Updated(routing, "stage_routes", RoutesValue(mapping)).value, "pools", PoolsValue(mapping));
    }
  }

  lemma {:induction false} ReferencesError(mapping: seq<Rename>, data: Fields)
    ensures FailsUnhashable(References(mapping, data))
  {
    if Section(data, "routing").Some? {
      RoutingError(mapping, Section(data, "routing").value);
    }
  }

  /** The decision that stops the loop: a legacy provider with a command whose base is neither a command nor an object. */
  predicate HasUnusableBase(text: Text, providers: Fields, name: string) {
    && LegacyReviewBase(name).Some? && Has(providers, LegacyReviewBase(name).value)
    && Has(providers, name) && DefaultCommand(text, Get(providers, name).value).Some?
    && AsObject(Get(providers, LegacyReviewBase(name).value).value).None?
  }

  /** The decision to move: the base is there, and reviews with the same command or with none. */
  predicate CanMove(text: Text, providers: Fields, name: string) {
    && LegacyReviewBase(name).Some? && Has(providers, LegacyReviewBase(name).value)
    && Has(providers, name) && DefaultCommand(text, Get(providers, name).value).Some?
    && AsObject(Get(providers, LegacyReviewBase(name).value).value).Some?
    && var review := ExistingReview(text, AsObject(Get(providers, LegacyReviewBase(name).value).value).value);
       review.None? || review == DefaultCommand(text, Get(providers, name).value)
  }

  lemma {:induction false} JudgeDecides(text: Text, providers: Fields, name: string)
    ensures Judge(text, providers, name).Bad? <==> HasUnusableBase(text, providers, name)
    ensures Judge(text, providers, name).Move? <==> CanMove(text, providers, name)
    ensures Judge(text, providers, name).Bad? ==> Judge(text, providers, name).base == LegacyReviewBase(name).value
  {
  }

  /** A move does not change which other names have an unusable base. */
  lemma {:induction false} MoveKeepsUnusable(text: Text, providers: Fields, name: string, other: string)
    requires Judge(text, providers, name).Move? && other != name
    ensures var v := Judge(text, providers, name);
      HasUnusableBase(text, ProvidersAfter(providers, name, v.base, v.spec), other)
      <==> HasUnusableBase(text, providers, other)
  {
    var v := Judge(text, providers, name);
    BasesAreNotLegacy(v.base);
    GetAfterMove(providers, name, v.base, v.spec, other);
    if LegacyReviewBase(other).Some? {
      BasesAreNotLegacy(LegacyReviewBase(other).value);
      GetAfterMove(providers, name, v.base, v.spec, LegacyReviewBase(other).value);
    }
  }

  ghost predicate IsFirstUnusable(text: Text, providers: Fields, names: seq<string>, k: nat) {
    && k < |names| && HasUnusableBase(text, providers, names[k])
    && forall j :: 0 <= j < k ==> !HasUnusableBase(text, providers, names[j])
  }

  /** The loop stops exactly at the first name whose base is unusable at the start. */
  lemma {:induction false} ScanStopsExactlyWhen(text: Text, s: Scan, names: seq<string>)
    requires Distinct(names)
    ensures ScanAll(text, s, names).Ok? <==> forall n :: n in names ==> !HasUnusableBase(text, s.providers, n)
    ensures ScanAll(text, s, names).Err? ==> exists k: nat ::
      IsFirstUnusable(text, s.providers, names, k)
      && ScanAll(text, s, names).error == BadProvider(LegacyReviewBase(names[k]).value)
    decreases names
  {
    if names != [] {
      JudgeDecides(text, s.providers, names[0]);
      assert forall n :: n in names <==> n == names[0] || n in names[1..];
      if HasUnusableBase(text, s.providers, names[0]) {
        assert names[0] in names && IsFirstUnusable(text, s.providers, names, 0);
      } else {
        var t := ScanOne(text, s, names[0]).value;
        assert names[0] !in names[1..];
        forall n | n in names[1..]
          ensures HasUnusableBase(text, t.providers, n) <==> HasUnusableBase(text, s.providers, n)
        {
          if Judge(text, s.providers, names[0]).Move? {
            MoveKeepsUnusable(text, s.providers, names[0], n);
          }
        }
        ScanStopsExactlyWhen(text, t, names[1..]);
        if ScanAll(text, t, names[1..]).Err? {
          var k: nat :| IsFirstUnusable(text, t.providers, names[1..], k)
            && ScanAll(text, t, names[1..]).error == BadProvider(LegacyReviewBase(names[1..][k]).value);
          assert names[k + 1] == names[1..][k];
          forall j | 0 <= j < k + 1
            ensures !HasUnusableBase(text, s.providers, names[j])
          {
            assert j > 0 ==> names[j] == names[1..][j - 1];
          }
          assert IsFirstUnusable(text, s.providers, names, k + 1);
        }
      }
    }
  }

  /** The loop moves something exactly when something could be moved at the start. */
  lemma {:induction false} ScanMovesExactlyWhen(text: Text, s: Scan, names: seq<string>)
    requires ScanAll(text, s, names).Ok?
    ensures |ScanAll(text, s, names).value.mapping| > |s.mapping|
       <==> exists n :: n in names && CanMove(text, s.providers, n)
    decreases names
  {
    if names != [] {
      JudgeDecides(text, s.providers, names[0]);
      assert names[0] in names && forall n :: n in names <==> n == names[0] || n in names[1..];
      var t := ScanOne(text, s, names[0]).value;
      ChangesMeanMoves(text, t, names[1..]);
      if !CanMove(text, s.providers, names[0]) {
        ScanMovesExactlyWhen(text, t, names[1..]);
      }
    }
  }

  ghost predicate SomeUnusableBase(text: Text, providers: Fields) {
    exists n :: Has(providers, n) && HasUnusableBase(text, providers, n)
  }

  ghost predicate SomethingMoves(text: Text, providers: Fields) {
    exists n :: Has(providers, n) && CanMove(text, providers, n)
  }

  lemma {:induction false} ScanOfExactlyWhen(text: Text, providers: Fields)
    requires Distinct(Keys(providers))
    ensures ScanOf(text, providers).Ok? <==> !SomeUnusableBase(text, providers)
    ensures ScanOf(text, providers).Err? ==> ScanOf(text, providers).error.BadProvider?
    ensures ScanOf(text, providers).Ok? ==>
      (ScanOf(text, providers).value.mapping != [] <==> SomethingMoves(text, providers))
  {
    var start := Scan(providers, [], [], []);
    forall n
      ensures n in Keys(providers) <==> Has(providers, n)
    {
      KeysMeans(providers, n);
    }
    ScanStopsExactlyWhen(text, start, Keys(providers));
    if ScanAll(text, start, Keys(providers)).Ok? {
      ScanMovesExactlyWhen(text, start, Keys(providers));
    }
  }

  /** The providers do not matter to the references. */
  lemma {:induction false} ReferencesBehindProviders(mapping: seq<Rename>, fields: Fields, providers: Json)
    ensures var r := References(mapping, Put(fields, "providers", providers));
      (r.Ok? <==> ReferencesHashable(fields)) && (r.Err? ==> r.error == Unhashable)
  {
    var after := Put(fields, "providers", providers);
    GetPut(fields, "providers", providers, "routing");
    GetPut(fields, "providers", providers, "diagnosis");
    ReferencesExactlyWhen(mapping, after);
    ReferencesError(mapping, after);
  }

  /** Which configurations fail, and how, in terms of the configuration alone. */
  lemma {:induction false} MigrationFailsExactlyWhen(text: Text, data: Json)
    requires UniqueProviders(data)
    ensures var r := Migration(text, data);
      && (r == Err(RootNotObject) <==> !data.Obj?)
      && (r == Err(ProvidersNotObject) <==>
            data.Obj? && ProvidersOf(data).None? && Has(data.fields, "providers")
            && !Get(data.fields, "providers").value.Null?)
      && (r.Err? && r.error.BadProvider? <==>
            ProvidersOf(data).Some? && SomeUnusableBase(text, ProvidersOf(data).value))
      && (r == Err(Unhashable) <==>
            && ProvidersOf(data).Some? && !SomeUnusableBase(text, ProvidersOf(data).value)
            && SomethingMoves(text, ProvidersOf(data).value) && !ReferencesHashable(data.fields))
  {
    if ProvidersOf(data).Some? {
      ScanOfExactlyWhen(text, ProvidersOf(data).value);
      if ScanOf(text, ProvidersOf(data).value).Ok? {
        var s := ScanOf(text, ProvidersOf(data).value).value;
        ReferencesBehindProviders(s.mapping, data.fields, Obj(s.providers));
      }
    }
  }

  /** The failing provider is the base of the first name, in order, that has an unusable one. */
  lemma {:induction false} FirstUnusableBaseIsReported(text: Text, data: Json)
    requires UniqueProviders(data) && ProvidersOf(data).Some? && SomeUnusableBase(text, ProvidersOf(data).value)
    ensures exists k: nat ::
      IsFirstUnusable(text, ProvidersOf(data).value, Keys(ProvidersOf(data).value), k)
      && Migration(text, data) == Err(BadProvider(LegacyReviewBase(Keys(ProvidersOf(data).value)[k]).value))
  {
    var providers := ProvidersOf(data).value;
    ScanOfExactlyWhen(text, providers);
    ScanStopsExactlyWhen(text, Scan(providers, [], [], []), Keys(providers));
  }

  /** A configuration that raises: one legacy provider, and a list where the single agent should be. */
  function ListAsSingleAgent(): Json {
    Obj([
      Field("providers", Obj(ONE_LEGACY)),
      Field("routing", Obj([Field("single_agent_provider", List([]))]))])
  }

  const ONE_LEGACY := [Field("claude", Str("a")), Field("claude-review", Str("b"))]

  lemma {:induction false} OneLegacyMoves(text: Text)
    requires !text.blank("b")
    ensures Distinct(Keys(ONE_LEGACY)) && SomethingMoves(text, ONE_LEGACY) && !SomeUnusableBase(text, ONE_LEGACY)
  {
    var name := "claude-review";
    assert EndsWith(name, "-review") && name[..|name| - |"-review"|] == "claude";
    assert LegacyReviewBase(name) == Some("claude");
    assert Get(ONE_LEGACY, "claude") == Some(Str("a")) && Get(ONE_LEGACY, name) == Some(Str("b"));
    assert CanMove(text, ONE_LEGACY, name);
    assert Keys(ONE_LEGACY) == ["claude", name];
    forall n
      ensures !HasUnusableBase(text, ONE_LEGACY, n)
    {
      KeysMeans(ONE_LEGACY, n);
    }
  }

  lemma {:induction false} ListAsSingleAgentRaises(text: Text)
    requires !text.blank("b")
    ensures UniqueProviders(ListAsSingleAgent()) && Migration(text, ListAsSingleAgent()) == Err(Unhashable)
  {
    OneLegacyMoves(text);
    assert ProvidersOf(ListAsSingleAgent()) == Some(ONE_LEGACY);
    assert Section(ListAsSingleAgent().fields, "routing") == Some([Field("single_agent_provider", List([]))]);
    MigrationFailsExactlyWhen(text, ListAsSingleAgent());
  }
}
