/** What the migration does to a configuration, in terms of the configuration before and after it: which providers go and why
    the others stay, and what becomes of everything that names a provider.
 */
module MigrationMeaning {
  import opened Prelude
  import opened ConfigMigration

  // ---------------------------------------------------------------------------------------------------------------
  // Names and commands
  // ---------------------------------------------------------------------------------------------------------------

  lemma {:induction false} EndingIs(name: string, base: string, suffix: string)
    ensures EndsWith(name, suffix) && name[..|name| - |suffix|] == base <==> name == base + suffix
  {
    if EndsWith(name, suffix) {
      assert name == name[..|name| - |suffix|] + name[|name| - |suffix|..];
    }
    if name == base + suffix {
      assert name[|name| - |suffix|..] == suffix && name[..|name| - |suffix|] == base;
    }
  }

  /** A legacy review provider is named after its base. */
  lemma {:induction false} LegacyNamesAre(name: string, base: string)
    ensures LegacyReviewBase(name) == Some(base)
       <==> (base == "claude" || base == "grok") && (name == base + "-review" || name == base + "_review")
  {
    EndingIs(name, base, "-review");
    EndingIs(name, base, "_review");
    assert LEGACY_SUFFIXES[1..] == ["_review"] && ["_review"][1..] == [];
    if EndsWith(name, "-review") {
      assert name[|name| - 7] == name[|name| - 7..][0] == '-';
    }
    if EndsWith(name, "_review") {
      assert name[|name| - 7] == name[|name| - 7..][0] == '_';
    }
    BaseIs(name);
  }

  lemma {:induction false} BaseIs(name: string)
    ensures LegacyReviewBase(name) ==
      if EndsWith(name, "-review") && name[..|name| - |"-review"|] in KNOWN_BASES then
        Some(name[..|name| - |"-review"|])
      else if EndsWith(name, "_review") && name[..|name| - |"_review"|] in KNOWN_BASES then
        Some(name[..|name| - |"_review"|])
      else None
  {
    assert LEGACY_SUFFIXES[1..] == ["_review"] && ["_review"][1..] == [];
    assert BaseFor(name, []) == None;
    assert BaseFor(name, ["_review"]) ==
      if EndsWith(name, "_review") && name[..|name| - |"_review"|] in KNOWN_BASES then
        Some(name[..|name| - |"_review"|])
      else None;
  }

  /** The command of a provider: a text that is not blank, as it stands or as the entry `command`. */
  lemma {:induction false} DefaultCommandIs(text: Text, v: Json, c: string)
    ensures DefaultCommand(text, v) == Some(c)
       <==> !text.blank(c) && (v == Str(c) || (v.Obj? && Get(v.fields, "command") == Some(Str(c))))
  {
  }

  /** The first entry of `commands` for the review stage that holds a command. */
  ghost predicate IsReviewEntry(text: Text, commands: Fields, i: nat, c: string) {
    && i < |commands| && text.isReview(commands[i].key) && commands[i].value == Str(c) && !text.blank(c)
    && forall j :: 0 <= j < i ==>
         !(text.isReview(commands[j].key) && commands[j].value.Str? && !text.blank(commands[j].value.s))
  }

  lemma {:induction false} ReviewInIs(text: Text, commands: Fields, c: string)
    ensures ReviewIn(text, commands) == Some(c) <==> exists i: nat :: IsReviewEntry(text, commands, i, c)
  {
    if commands != [] {
      var rest := commands[1..];
      ReviewInIs(text, rest, c);
      if text.isReview(commands[0].key) && Command(text, commands[0].value).Some? {
        if ReviewIn(text, commands) == Some(c) {
          assert IsReviewEntry(text, commands, 0, c);
        }
      } else {
        if i: nat :| IsReviewEntry(text, rest, i, c) {
          assert IsReviewEntry(text, commands, i + 1, c);
        }
        if i: nat :| IsReviewEntry(text, commands, i, c) {
          assert forall j :: 0 <= j < i - 1 ==> rest[j] == commands[j + 1];
          assert IsReviewEntry(text, rest, i - 1, c);
        }
      }
    }
  }

  /** The command a provider reviews with: its `review_command`, or else the first one of its `commands` for REVIEW. */
  lemma {:induction false} ExistingReviewIs(text: Text, spec: Fields, c: string)
    ensures ExistingReview(text, spec) == Some(c) <==>
      || (!text.blank(c) && Get(spec, "review_command") == Some(Str(c)))
      || (&& !(exists own :: !text.blank(own) && Get(spec, "review_command") == Some(Str(own)))
          && exists i: nat :: Section(spec, "commands").Some? && IsReviewEntry(text, Section(spec, "commands").value, i, c))
  {
    if Section(spec, "commands").Some? {
      ReviewInIs(text, Section(spec, "commands").value, c);
    }
    if Has(spec, "review_command") && Command(text, Get(spec, "review_command").value).Some? {
      var own := Command(text, Get(spec, "review_command").value).value;
      assert !text.blank(own) && Get(spec, "review_command") == Some(Str(own));
    }
  }

  // ---------------------------------------------------------------------------------------------------------------
  // Why a legacy provider stays, and what is reported
  // ---------------------------------------------------------------------------------------------------------------

  /** The command of `name` in `providers`, if it has one. */
  ghost predicate HasCommand(text: Text, providers: Fields, name: string, c: string) {
    Has(providers, name) && DefaultCommand(text, Get(providers, name).value) == Some(c)
  }

  ghost predicate HasReview(text: Text, providers: Fields, base: string) {
    exists c :: ReviewsWith(text, providers, base, c)
  }

  /** What the loop knows about a legacy name when it is over. */
  ghost predicate Judged(text: Text, before: Fields, f: Scan, n: string, base: string) {
    && (NoBase(n) in f.limitations <==> !Has(before, base))
    && (NoCommand(n) in f.limitations <==> Has(before, base) && !exists c :: HasCommand(text, before, n, c))
    && (Differs(n) in f.limitations ==>
         && Has(before, base)
         && exists c :: HasCommand(text, before, n, c) && !ReviewsWith(text, f.providers, base, c))
  }

  lemma {:induction false} LimitationsOfOthers(text: Text, s: Scan, names: seq<string>, l: Limitation)
    requires ScanAll(text, s, names).Ok? && l.name !in names
    ensures l in ScanAll(text, s, names).value.limitations <==> l in s.limitations
    decreases names
  {
    if names != [] {
      assert names[0] in names && forall x :: x in names[1..] ==> x in names;
      LimitationsOfOthers(text, ScanOne(text, s, names[0]).value, names[1..], l);
    }
  }

  /** What was decided when the loop came to `names[0]`. */
  lemma {:induction false} FirstIsJudged(text: Text, s: Scan, names: seq<string>, base: string)
    requires ScanAll(text, s, names).Ok? && Distinct(names) && names != []
    requires LegacyReviewBase(names[0]) == Some(base) && !Reported(s.limitations, names[0])
    ensures Judged(text, s.providers, ScanAll(text, s, names).value, names[0], base)
  {
    var n, t, f := names[0], ScanOne(text, s, names[0]).value, ScanAll(text, s, names).value;
    assert n !in names[1..];
    LimitationsOfOthers(text, t, names[1..], NoBase(n));
    LimitationsOfOthers(text, t, names[1..], NoCommand(n));
    LimitationsOfOthers(text, t, names[1..], Differs(n));
    assert forall l :: l in s.limitations ==> l.name != n;
    match Judge(text, s.providers, n)
    case Limited(Differs(_)) =>
      var existing := ExistingReview(text, AsObject(Get(s.providers, base).value).value).value;
      var c := DefaultCommand(text, Get(s.providers, n).value).value;
      assert HasCommand(text, s.providers, n, c);
      assert ReviewsWith(text, t.providers, base, existing);
      ScanKeepsReview(text, t, names[1..], base, existing);
      assert !ReviewsWith(text, f.providers, base, c);
    case Move(_, _) =>
      assert HasCommand(text, s.providers, n, DefaultCommand(text, Get(s.providers, n).value).value);
    case Limited(_) =>
    case NotLegacy =>
  }

  lemma {:induction false} JudgedAlike(text: Text, before: Fields, start: Fields, f: Scan, n: string, base: string)
    requires Judged(text, before, f, n, base)
    requires Get(before, n) == Get(start, n) && (Has(before, base) <==> Has(start, base))
    ensures Judged(text, start, f, n, base)
  {
    assert forall c :: HasCommand(text, before, n, c) <==> HasCommand(text, start, n, c);
  }

  lemma {:induction false} VisitedIsJudged(text: Text, s: Scan, names: seq<string>, n: string, base: string)
    requires ScanAll(text, s, names).Ok? && Distinct(names) && n in names
    requires LegacyReviewBase(n) == Some(base) && !Reported(s.limitations, n)
    ensures Judged(text, s.providers, ScanAll(text, s, names).value, n, base)
    decreases names
  {
    if names[0] == n {
      FirstIsJudged(text, s, names, base);
    } else {
      var t := ScanOne(text, s, names[0]).value;
      assert n in names[1..];
      assert forall l :: l in t.limitations ==> l in s.limitations || l.name == names[0];
      VisitedIsJudged(text, t, names[1..], n, base);
      StepKeepsLegacy(text, s, names[0], n, base);
      JudgedAlike(text, t.providers, s.providers, ScanAll(text, s, names).value, n, base);
    }
  }

  /** A step changes no other legacy provider, and removes no base. */
  lemma {:induction false} StepKeepsLegacy(text: Text, s: Scan, name: string, n: string, base: string)
    requires ScanOne(text, s, name).Ok? && n != name && LegacyReviewBase(n) == Some(base)
    ensures var t := ScanOne(text, s, name).value;
      Get(t.providers, n) == Get(s.providers, n) && (Has(t.providers, base) <==> Has(s.providers, base))
  {
    var v := Judge(text, s.providers, name);
    if v.Move? {
      BasesAreNotLegacy(v.base);
      BasesAreNotLegacy(base);
      GetAfterMove(s.providers, name, v.base, v.spec, n);
      GetAfterMove(s.providers, name, v.base, v.spec, base);
    }
  }

  /** Every legacy provider is removed, or stays for the reason that is reported: its base is missing, it has no command, or
      its base reviews with another one. Nothing else is removed or reported. */
  lemma {:induction false} ProvidersStayForAReason(text: Text, data: Json, n: string)
    requires UniqueProviders(data) && Migration(text, data).Ok? && ProvidersOf(data).Some?
    requires Has(ProvidersOf(data).value, n)
    ensures var m, before := Migration(text, data).value, ProvidersOf(data).value;
      match LegacyReviewBase(n)
      case None => !Removes(data, m.data, n) && !Reported(m.limitations, n)
      case Some(base) =>
        && ProvidersOf(m.data).Some?
        && var after := ProvidersOf(m.data).value;
        && (NoBase(n) in m.limitations <==> !Has(before, base))
        && (NoCommand(n) in m.limitations <==> Has(before, base) && !exists c :: HasCommand(text, before, n, c))
        && (Differs(n) in m.limitations <==>
              Has(before, base) && exists c :: HasCommand(text, before, n, c) && !ReviewsWith(text, after, base, c))
        && (Removes(data, m.data, n) <==>
              Has(before, base) && exists c :: HasCommand(text, before, n, c) && ReviewsWith(text, after, base, c))
  {
    var s := ScanOfMigration(text, data);
    var before := ProvidersOf(data).value;
    var start := Scan(before, [], [], []);
    KeysMeans(before, n);
    LookupMeans(s.mapping, n);
    match LegacyReviewBase(n)
    case None =>
      OnlyLegacyIsReported(text, start, Keys(before), n);
    case Some(base) =>
      VisitedIsJudged(text, start, Keys(before), n, base);
      VisitedIsAccountedFor(text, start, Keys(before), n);
      if Removes(data, Migration(text, data).value.data, n) {
        assert Carried(text, before, s.providers, Rename(n, base));
        assert HasCommand(text, before, n, DefaultCommand(text, Get(before, n).value).value);
      } else {
        var l :| l in s.limitations && l.name == n;
      }
  }

  lemma {:induction false} OnlyLegacyIsReported(text: Text, s: Scan, names: seq<string>, n: string)
    requires ScanAll(text, s, names).Ok? && LegacyReviewBase(n).None? && !Reported(s.limitations, n)
    ensures !Reported(ScanAll(text, s, names).value.limitations, n)
    decreases names
  {
    if names != [] {
      var t := ScanOne(text, s, names[0]).value;
      assert forall l :: l in t.limitations ==> l in s.limitations || (l.name == names[0] && l.name != n);
      OnlyLegacyIsReported(text, t, names[1..], n);
    }
  }

  // ---------------------------------------------------------------------------------------------------------------
  // What the changes say
  // ---------------------------------------------------------------------------------------------------------------

  /** The changes so far, against the providers at the start of the loop. */
  ghost predicate Told(text: Text, before: Fields, s: Scan) {
    && (forall n :: Removed(n) in s.changes <==> IsRenamed(s.mapping, n))
    && (forall n, b :: Moved(n, b) in s.changes ==> Rename(n, b) in s.mapping && !HasReview(text, before, b))
    && (forall k :: Has(s.providers, k) && Get(s.providers, k) != Get(before, k) ==> exists n :: Moved(n, k) in s.changes)
    && (forall b, c :: b in KNOWN_BASES && ReviewsWith(text, before, b, c) ==> ReviewsWith(text, s.providers, b, c))
  }

  lemma {:induction false} MoveIsTold(text: Text, before: Fields, s: Scan, name: string)
    requires Told(text, before, s) && Judge(text, s.providers, name).Move?
    ensures Told(text, before, ScanOne(text, s, name).value)
  {
    var v, t := Judge(text, s.providers, name), ScanOne(text, s, name).value;
    var first := Rename(name, v.base);
    BasesAreNotLegacy(v.base);
    assert forall n :: IsRenamed(t.mapping, n) <==> IsRenamed(s.mapping, n) || n == name by {
      assert first in t.mapping;
      assert forall r :: r in t.mapping <==> r in s.mapping || r == first;
    }
    forall k | Has(t.providers, k) && Get(t.providers, k) != Get(before, k)
      ensures exists n :: Moved(n, k) in t.changes
    {
      GetAfterMove(s.providers, name, v.base, v.spec, k);
      if k == v.base && v.spec.Some? {
        assert Moved(name, k) in t.changes;
      } else {
        var n :| Moved(n, k) in s.changes;
        assert Moved(n, k) in t.changes;
      }
    }
    forall b, c | b in KNOWN_BASES && ReviewsWith(text, before, b, c)
      ensures ReviewsWith(text, t.providers, b, c)
    {
      MoveKeepsReview(text, s.providers, name, b, c);
    }
  }

  lemma {:induction false} ScanIsTold(text: Text, before: Fields, s: Scan, names: seq<string>)
    requires Told(text, before, s) && ScanAll(text, s, names).Ok?
    ensures Told(text, before, ScanAll(text, s, names).value)
    decreases names
  {
    if names != [] {
      if Judge(text, s.providers, names[0]).Move? {
        MoveIsTold(text, before, s, names[0]);
      }
      ScanIsTold(text, before, ScanOne(text, s, names[0]).value, names[1..]);
    }
  }

  /** The changes tell of every provider that is removed and of no other; of a command that was moved only when it was the
      command of a removed provider and its base reviewed with none; and of every other provider that changed. */
  lemma {:induction false} ChangesTellTheTruth(text: Text, data: Json, n: string)
    requires UniqueProviders(data) && Migration(text, data).Ok? && ProvidersOf(data).Some?
    ensures var m, before := Migration(text, data).value, ProvidersOf(data).value;
      && ProvidersOf(m.data).Some?
      && (Removed(n) in m.changes <==> Removes(data, m.data, n))
      && (forall b :: Moved(n, b) in m.changes ==>
           Removes(data, m.data, n) && LegacyReviewBase(n) == Some(b) && !HasReview(text, before, b))
      && (Has(ProvidersOf(m.data).value, n) && Get(ProvidersOf(m.data).value, n) != Get(before, n) ==>
           exists legacy :: Moved(legacy, n) in m.changes)
  {
    var s := ScanOfMigration(text, data);
    var before := ProvidersOf(data).value;
    var start := Scan(before, [], [], []);
    assert Told(text, before, start);
    ScanIsTold(text, before, start, Keys(before));
    LookupMeans(s.mapping, n);
    forall b | Moved(n, b) in s.changes
      ensures LegacyReviewBase(n) == Some(b)
    {
      assert Carried(text, before, s.providers, Rename(n, b));
    }
  }

  // ---------------------------------------------------------------------------------------------------------------
  // What becomes of everything that names a provider
  // ---------------------------------------------------------------------------------------------------------------

  /** The legacy providers that the migration removed. */
  ghost function Gone(before: Json, after: Json): set<string>
    requires ProvidersOf(before).Some? && ProvidersOf(after).Some?
  {
    set n | n in Keys(ProvidersOf(before).value) && !Has(ProvidersOf(after).value, n)
  }

  /** A name of a provider that is gone becomes the name of its base; anything else stays. */
  function Follow(gone: set<string>, v: Json): Json {
    if v.Str? && v.s in gone && LegacyReviewBase(v.s).Some? then Str(LegacyReviewBase(v.s).value) else v
  }

  ghost predicate RoutesFollow(gone: set<string>, before: Fields, after: Fields) {
    && |after| == |before|
    && forall i :: 0 <= i < |before| ==> after[i] == Field(before[i].key, Follow(gone, before[i].value))
  }

  function FollowAll(gone: set<string>, items: seq<Json>): (image: seq<Json>)
    ensures |image| == |items| && forall i :: 0 <= i < |items| ==> image[i] == Follow(gone, items[i])
  {
    seq(|items|, i requires 0 <= i < |items| => Follow(gone, items[i]))
  }

  /** A string that occurs before position `i` as well. */
  ghost predicate RepeatsAt(items: seq<Json>, i: nat)
    requires i < |items|
  {
    items[i].Str? && exists j :: 0 <= j < i && items[j] == items[i]
  }

  ghost predicate Increasing(kept: seq<nat>, n: nat) {
    && (forall i :: 0 <= i < |kept| ==> kept[i] < n)
    && forall i, j :: 0 <= i < j < |kept| ==> kept[i] < kept[j]
  }

  /** `after` has the items at the positions `kept`, which are all but those that repeat a string. */
  ghost predicate KeepsFirst(items: seq<Json>, kept: seq<nat>, after: seq<Json>) {
    && Increasing(kept, |items|) && |after| == |kept|
    && (forall i :: 0 <= i < |kept| ==> after[i] == items[kept[i]])
    && forall i: nat :: i < |items| ==> (i in kept <==> !RepeatsAt(items, i))
  }

  /** Every name of a pool follows its provider, and of equal strings only the first stays. */
  ghost predicate PoolFollows(gone: set<string>, before: Json, after: Json) {
    if before.List? then
      after.List? && exists kept :: KeepsFirst(FollowAll(gone, before.items), kept, after.items)
    else after == before
  }

  ghost predicate PoolsFollow(gone: set<string>, before: Fields, after: Fields) {
    && |after| == |before|
    && forall i :: 0 <= i < |before| ==>
         after[i].key == before[i].key && PoolFollows(gone, before[i].value, after[i].value)
  }

  ghost predicate WeightsFollow(gone: set<string>, before: Fields, after: Fields) {
    forall k :: Get(after, k) == if k in gone then None else Get(before, k)
  }

  ghost predicate RoutingFollows(gone: set<string>, before: Fields, after: Fields) {
    && (forall k :: k !in {"stage_routes", "pools", "single_agent_provider", "provider_weights"} ==>
         Get(after, k) == Get(before, k))
    && (match Get(before, "stage_routes")
        case Some(Obj(b)) => Section(after, "stage_routes").Some? && RoutesFollow(gone, b, Section(after, "stage_routes").value)
        case other => Get(after, "stage_routes") == other)
    && (match Get(before, "pools")
        case Some(Obj(b)) => Section(after, "pools").Some? && PoolsFollow(gone, b, Section(after, "pools").value)
        case other => Get(after, "pools") == other)
    && (match Get(before, "single_agent_provider")
        case Some(v) => Get(after, "single_agent_provider") == Some(Follow(gone, v))
        case None => Get(after, "single_agent_provider").None?)
    && (match Get(before, "provider_weights")
        case Some(Obj(b)) =>
          Section(after, "provider_weights").Some? && WeightsFollow(gone, b, Section(after, "provider_weights").value)
        case other => Get(after, "provider_weights") == other)
  }

  ghost predicate DiagnosisFollows(gone: set<string>, before: Fields, after: Fields) {
    && (forall k :: k != "provider" ==> Get(after, k) == Get(before, k))
    && (match Get(before, "provider")
        case Some(v) => Get(after, "provider") == Some(Follow(gone, v))
        case None => Get(after, "provider").None?)
  }

  ghost predicate RoutingEntryFollows(gone: set<string>, before: Option<Json>, after: Option<Json>) {
    match before
    case Some(Obj(b)) => after.Some? && after.value.Obj? && RoutingFollows(gone, b, after.value.fields)
    case other => after == other
  }

  ghost predicate DiagnosisEntryFollows(gone: set<string>, before: Option<Json>, after: Option<Json>) {
    match before
    case Some(Obj(b)) => after.Some? && after.value.Obj? && DiagnosisFollows(gone, b, after.value.fields)
    case other => after == other
  }

  ghost predicate DataFollows(gone: set<string>, before: Fields, after: Fields) {
    && (forall k :: k !in {"providers", "routing", "diagnosis"} ==> Get(after, k) == Get(before, k))
    && RoutingEntryFollows(gone, Get(before, "routing"), Get(after, "routing"))
    && DiagnosisEntryFollows(gone, Get(before, "diagnosis"), Get(after, "diagnosis"))
  }

  /** The recorded renames are those of the providers that are gone. */
  ghost predicate RenamesGone(mapping: seq<Rename>, gone: set<string>) {
    && LegacyOnly(mapping) && (forall n :: n in gone ==> LegacyReviewBase(n).Some?)
    && forall n :: Lookup(mapping, n).Some? <==> n in gone
  }

  lemma {:induction false} MappedFollows(mapping: seq<Rename>, gone: set<string>, v: Json)
    requires RenamesGone(mapping, gone) && Mapped(mapping, v).Ok?
    ensures Mapped(mapping, v).value == Follow(gone, v)
  {
    if v.Str? {
      LookupMeans(mapping, v.s);
    }
  }

  lemma {:induction false} MappedRoutesFollow(mapping: seq<Rename>, gone: set<string>, routes: Fields)
    requires RenamesGone(mapping, gone) && EachValue(routes, NameValue(mapping)).Ok?
    ensures RoutesFollow(gone, routes, EachValue(routes, NameValue(mapping)).value)
  {
    EachValueAt(routes, NameValue(mapping));
    forall i | 0 <= i < |routes|
      ensures EachValue(routes, NameValue(mapping)).value[i].value == Follow(gone, routes[i].value)
    {
      MappedFollows(mapping, gone, routes[i].value);
    }
  }

  lemma {:induction false} RepeatsOneMore(init: seq<Json>, last: Json, i: nat)
    requires i <= |init|
    ensures RepeatsAt(init + [last], i) <==> if i < |init| then RepeatsAt(init, i) else last.Str? && last in init
  {
    var items := init + [last];
    if i < |init| {
      assert items[i] == init[i] && forall j :: 0 <= j < i ==> items[j] == init[j];
    } else {
      assert items[i] == last && forall j :: 0 <= j < i ==> items[j] == init[j];
    }
  }

  lemma {:induction false} KeepsOneMore(init: seq<Json>, last: Json, kept: seq<nat>, after: seq<Json>)
    requires KeepsFirst(init, kept, after)
    ensures last.Str? && last in init ==> KeepsFirst(init + [last], kept, after)
    ensures !(last.Str? && last in init) ==> KeepsFirst(init + [last], kept + [|init|], after + [last])
  {
    var items := init + [last];
    forall i: nat | i < |items|
      ensures RepeatsAt(items, i) <==> if i < |init| then RepeatsAt(init, i) else last.Str? && last in init
    {
      RepeatsOneMore(init, last, i);
    }
    assert |init| !in kept;
  }

  /** The positions of the first occurrences. */
  lemma {:induction false} FirstOccurrencesAreKept(items: seq<Json>) returns (kept: seq<nat>)
    ensures KeepsFirst(items, kept, FirstOccurrences(items))
  {
    if items == [] {
      kept := [];
    } else {
      var init, last := items[..|items| - 1], items[|items| - 1];
      assert items == init + [last];
      kept := FirstOccurrencesAreKept(init);
      KeepsOneMore(init, last, kept, FirstOccurrences(init));
      OneMoreOccurrence(init, last);
      if !(last.Str? && last in init) {
        kept := kept + [|init|];
      } else {
        assert FirstOccurrences(init) + [] == FirstOccurrences(init);
      }
    }
  }

  lemma {:induction false} MappedPoolFollows(mapping: seq<Rename>, gone: set<string>, v: Json)
    requires RenamesGone(mapping, gone) && PoolValue(mapping)(v).Ok?
    ensures PoolFollows(gone, v, PoolValue(mapping)(v).value)
  {
    if v.List? {
      var image := MappedItems(mapping, v.items).value;
      MappedItemsAt(mapping, v.items);
      forall i | 0 <= i < |v.items|
        ensures image[i] == Follow(gone, v.items[i])
      {
        MappedFollows(mapping, gone, v.items[i]);
      }
      assert image == FollowAll(gone, v.items);
      var kept := FirstOccurrencesAreKept(image);
    }
  }

  lemma {:induction false} MappedPoolsFollow(mapping: seq<Rename>, gone: set<string>, pools: Fields)
    requires RenamesGone(mapping, gone) && EachValue(pools, PoolValue(mapping)).Ok?
    ensures PoolsFollow(gone, pools, EachValue(pools, PoolValue(mapping)).value)
  {
    EachValueAt(pools, PoolValue(mapping));
    forall i | 0 <= i < |pools|
      ensures PoolFollows(gone, pools[i].value, EachValue(pools, PoolValue(mapping)).value[i].value)
    {
      MappedPoolFollows(mapping, gone, pools[i].value);
    }
  }

  lemma {:induction false} MappedRoutingFollows(mapping: seq<Rename>, gone: set<string>, routing: Fields)
    requires RenamesGone(mapping, gone) && RoutingFields(mapping, routing).Ok?
    ensures RoutingFollows(gone, routing, RoutingFields(mapping, routing).value)
  {
    forall k
      ensures k !in {"stage_routes", "pools", "single_agent_provider", "provider_weights"} ==>
        Get(RoutingFields(mapping, routing).value, k) == Get(routing, k)
    {
      RoutingIsTheImage(mapping, routing, k);
    }
    StageRoutesFollow(mapping, gone, routing);
    AllPoolsFollow(mapping, gone, routing);
    AgentAndWeightsFollow(mapping, gone, routing);
  }

  lemma {:induction false} StageRoutesFollow(mapping: seq<Rename>, gone: set<string>, routing: Fields)
    requires RenamesGone(mapping, gone) && RoutingFields(mapping, routing).Ok?
    ensures var after := RoutingFields(mapping, routing).value;
      match Get(routing, "stage_routes")
      case Some(Obj(b)) => Section(after, "stage_routes").Some? && RoutesFollow(gone, b, Section(after, "stage_routes").value)
      case other => Get(after, "stage_routes") == other
  {
    RoutingIsTheImage(mapping, routing, "stage_routes");
    if Section(routing, "stage_routes").Some? {
      MappedRoutesFollow(mapping, gone, Section(routing, "stage_routes").value);
    }
  }

  lemma {:induction false} AllPoolsFollow(mapping: seq<Rename>, gone: set<string>, routing: Fields)
    requires RenamesGone(mapping, gone) && RoutingFields(mapping, routing).Ok?
    ensures var after := RoutingFields(mapping, routing).value;
      match Get(routing, "pools")
      case Some(Obj(b)) => Section(after, "pools").Some? && PoolsFollow(gone, b, Section(after, "pools").value)
      case other => Get(after, "pools") == other
  {
    RoutingIsTheImage(mapping, routing, "pools");
    if Section(routing, "pools").Some? {
      MappedPoolsFollow(mapping, gone, Section(routing, "pools").value);
    }
  }

  lemma {:induction false} AgentAndWeightsFollow(mapping: seq<Rename>, gone: set<string>, routing: Fields)
    requires RenamesGone(mapping, gone) && RoutingFields(mapping, routing).Ok?
    ensures var after := RoutingFields(mapping, routing).value;
      && (match Get(routing, "single_agent_provider")
          case Some(v) => Get(after, "single_agent_provider") == Some(Follow(gone, v))
          case None => Get(after, "single_agent_provider").None?)
      && (match Get(routing, "provider_weights")
          case Some(Obj(b)) =>
            Section(after, "provider_weights").Some? && WeightsFollow(gone, b, Section(after, "provider_weights").value)
          case other => Get(after, "provider_weights") == other)
  {
    RoutingIsTheImage(mapping, routing, "single_agent_provider");
    RoutingIsTheImage(mapping, routing, "provider_weights");
    if Has(routing, "single_agent_provider") {
      MappedFollows(mapping, gone, Get(routing, "single_agent_provider").value);
    }
    if Section(routing, "provider_weights").Some? {
      forall k
        ensures Get(WithoutRenamed(mapping, Section(routing, "provider_weights").value), k) ==
          if k in gone then None else Get(Section(routing, "provider_weights").value, k)
      {
        WithoutRenamedMeans(mapping, Section(routing, "provider_weights").value, k);
      }
    }
  }

  lemma {:induction false} MappedDiagnosisFollows(mapping: seq<Rename>, gone: set<string>, diagnosis: Fields)
    requires RenamesGone(mapping, gone) && Updated(diagnosis, "provider", NameValue(mapping)).Ok?
    ensures DiagnosisFollows(gone, diagnosis, Updated(diagnosis, "provider", NameValue(mapping)).value)
  {
    forall k
      ensures k != "provider" ==>
        Get(Updated(diagnosis, "provider", NameValue(mapping)).value, k) == Get(diagnosis, k)
    {
      UpdatedKeepsOthers(diagnosis, "provider", NameValue(mapping), k);
    }
    UpdatedKeepsOthers(diagnosis, "provider", NameValue(mapping), "provider");
    if Has(diagnosis, "provider") {
      MappedFollows(mapping, gone, Get(diagnosis, "provider").value);
    }
  }

  lemma {:induction false} RewrittenRoutingFollows(
    mapping: seq<Rename>, gone: set<string>, before: Option<Json>, after: Option<Json>)
    requires RenamesGone(mapping, gone) && Rewritten(before, RoutingValue(mapping), after)
    ensures RoutingEntryFollows(gone, before, after)
  {
    if before.Some? && before.value.Obj? {
      MappedRoutingFollows(mapping, gone, before.value.fields);
    }
  }

  lemma {:induction false} RewrittenDiagnosisFollows(
    mapping: seq<Rename>, gone: set<string>, before: Option<Json>, after: Option<Json>)
    requires RenamesGone(mapping, gone) && Rewritten(before, DiagnosisValue(mapping), after)
    ensures DiagnosisEntryFollows(gone, before, after)
  {
    if before.Some? && before.value.Obj? {
      MappedDiagnosisFollows(mapping, gone, before.value.fields);
    }
  }

  /** The two sections are rewritten each by its own rule, and no other entry changes. */
  lemma {:induction false} SectionsAreRewritten(mapping: seq<Rename>, fields: Fields, k: string)
    requires References(mapping, fields).Ok?
    ensures var before, after := Get(fields, k), Get(References(mapping, fields).value, k);
      if k == "routing" then Rewritten(before, RoutingValue(mapping), after)
      else if k == "diagnosis" then Rewritten(before, DiagnosisValue(mapping), after)
      else after == before
  {
    var a := Updated(fields, "routing", RoutingValue(mapping)).value;
    UpdatedRewrites(fields, "routing", RoutingValue(mapping), k);
    UpdatedRewrites(a, "diagnosis", DiagnosisValue(mapping), k);
  }

  lemma {:induction false} MappedDataFollows(mapping: seq<Rename>, gone: set<string>, data: Fields, fields: Fields)
    requires RenamesGone(mapping, gone) && References(mapping, fields).Ok?
    requires forall k :: k != "providers" ==> Get(fields, k) == Get(data, k)
    ensures DataFollows(gone, data, References(mapping, fields).value)
  {
    var after := References(mapping, fields).value;
    forall k | k !in {"providers", "routing", "diagnosis"}
      ensures Get(after, k) == Get(data, k)
    {
      SectionsAreRewritten(mapping, fields, k);
    }
    SectionsAreRewritten(mapping, fields, "routing");
    SectionsAreRewritten(mapping, fields, "diagnosis");
    RewrittenRoutingFollows(mapping, gone, Get(data, "routing"), Get(after, "routing"));
    RewrittenDiagnosisFollows(mapping, gone, Get(data, "diagnosis"), Get(after, "diagnosis"));
  }

  /** Whatever named a provider that the migration removed names its base afterwards, and whatever named another one is what it
      was: stage routes, pools (which also lose repeated strings), the single agent, the diagnosis and the weights, which are
      dropped. No other entry of the configuration changes. */
  lemma {:induction false} ReferencesFollowTheirProviders(text: Text, data: Json)
    requires UniqueProviders(data) && Migration(text, data).Ok?
    ensures var after := Migration(text, data).value.data;
      match ProvidersOf(data)
      case None => after == data && Migration(text, data).value.changes == [] && Migration(text, data).value.limitations == []
      case Some(_) =>
        && ProvidersOf(after).Some?
        && (if Gone(data, after) == {} then after == data
            else after.Obj? && DataFollows(Gone(data, after), data.fields, after.fields))
  {
    if ProvidersOf(data).Some? {
      var s := ScanOfMigration(text, data);
      var after := Migration(text, data).value.data;
      var gone := Gone(data, after);
      forall n
        ensures n in gone <==> Lookup(s.mapping, n).Some?
      {
        KeysMeans(ProvidersOf(data).value, n);
        LookupMeans(s.mapping, n);
      }
      if s.mapping == [] {
        assert gone == {};
      } else {
        LookupMeans(s.mapping, s.mapping[0].legacy);
        assert s.mapping[0].legacy in gone;
        forall n | n in gone
          ensures LegacyReviewBase(n).Some?
        {
          LookupMeans(s.mapping, n);
        }
        var fields := Put(data.fields, "providers", Obj(s.providers));
        forall k | k != "providers"
          ensures Get(fields, k) == Get(data.fields, k)
        {
          GetPut(data.fields, "providers", Obj(s.providers), k);
        }
        MappedDataFollows(s.mapping, gone, data.fields, fields);
      }
    }
  }
}
