/** The registry of template versions (core/ir/template_versions.py). A timestamp is the integer
    that it is read as. */
module TemplateVersions {
  import opened Prelude
  import opened VersionOrder

  /** A timestamp that is missing, cannot be read, or stands for a moment. */
  datatype Stamp = Absent | Unreadable | At(time: int)

  datatype Window = Window(start: Stamp, end: Stamp)

  /** What the registry reads of a template; `body` is all the rest. A field of another type than
      the source demands is None. */
  datatype Template = Template(id: Option<string>, version: Option<string>, status: Option<string>,
      effective: Option<Window>, body: string)

  /** The `effective` entry of a template: a dictionary of its own, which others may refer to. */
  class WindowDict {
    var start: Stamp
    var end: Stamp

    constructor (start: Stamp, end: Stamp)
      ensures this.start == start && this.end == end
    {
      this.start, this.end := start, end;
    }
  }

  /** A template as a mutable dictionary with a nested one. */
  class TemplateDict {
    var id: Option<string>
    var version: Option<string>
    var status: Option<string>
    var effective: WindowDict?
    var body: string

    constructor (id: Option<string>, version: Option<string>, status: Option<string>, effective: WindowDict?,
        body: string)
      ensures this.id == id && this.version == version && this.status == status && this.effective == effective
        && this.body == body
    {
      this.id, this.version, this.status, this.effective, this.body := id, version, status, effective, body;
    }

    /** What the dictionary holds now. */
    function Value(): (value: Template)
      reads this, effective
      ensures value.id == id && value.version == version && value.status == status && value.body == body
      ensures effective == null <==> value.effective == None
      ensures effective != null ==>
        value.effective.value.start == effective.start && value.effective.value.end == effective.end
    {
      Template(
        id, version, status,
        if effective == null then None else Some(Window(effective.start, effective.end)), body)
    }

    /** No part of the dictionary is among `objects`. */
    ghost predicate IsApartFrom(objects: set<object>)
      reads this
    {
      this !in objects && (effective != null ==> effective !in objects)
    }
  }

  /** `copy.deepcopy`: the nested dictionary is copied as well. */
  method DeepCopy(dict: TemplateDict) returns (copy: TemplateDict)
    ensures fresh(copy) && (copy.effective != null ==> fresh(copy.effective))
    ensures copy.Value() == dict.Value()
  {
    var effective: WindowDict? := null;
    if dict.effective != null {
      effective := new WindowDict(dict.effective.start, dict.effective.end);
    }
    copy := new TemplateDict(dict.id, dict.version, dict.status, effective, dict.body);
  }

  // ---- Templates

  ghost predicate IsSound(t: Template) {
    && t.id.Some? && t.id.value != ""
    && t.version.Some? && KeyOf(t.version.value).Some?
    && (t.status == Some("active") || t.status == Some("inactive"))
    && t.effective.Some? && t.effective.value.start.At?
    && match t.effective.value.end
       case Absent => true
       case Unreadable => false
       case At(end) => end > t.effective.value.start.time
  }

  predicate IsActive(t: Template) {
    t.status == Some("active")
  }

  predicate IsEffectiveAt(t: Template, time: int)
    requires IsSound(t)
  {
    t.effective.value.start.time <= time && (t.effective.value.end.At? ==> time < t.effective.value.end.time)
  }

  function Key(t: Template): VersionKey
    requires IsSound(t)
  {
    KeyOf(t.version.value).value
  }

  ghost predicate SameVersion(a: Template, b: Template) {
    a.id == b.id && a.version == b.version
  }

  /** Sound templates, no two of the same identifier and version. */
  ghost predicate IsRegister(templates: set<Template>) {
    && (forall t :: t in templates ==> IsSound(t))
    && (forall t, u :: t in templates && u in templates && SameVersion(t, u) ==> t == u)
  }

  // ---- What the answers are

  ghost predicate IsCandidate(templates: set<Template>, id: string, time: int, t: Template) {
    t in templates && t.id == Some(id) && IsSound(t) && IsActive(t) && IsEffectiveAt(t, time)
  }

  /** The newest of the active versions that are effective. */
  ghost predicate IsSelected(templates: set<Template>, id: string, time: int, t: Template) {
    && IsCandidate(templates, id, time, t)
    && forall u :: IsCandidate(templates, id, time, u) ==> u == t || Older(Key(u), Key(t))
  }

  ghost predicate IsKnown(templates: set<Template>, id: string) {
    exists t :: t in templates && t.id == Some(id)
  }

  ghost predicate IsRegistered(templates: set<Template>, id: string, version: string, t: Template) {
    t in templates && t.id == Some(id) && t.version == Some(version)
  }

  /** What `get_version` may return. */
  ghost predicate IsAvailable(templates: set<Template>, id: string, version: string, includeInactive: bool, time: int,
      t: Template) {
    && IsRegistered(templates, id, version, t) && IsSound(t)
    && (includeInactive || IsActive(t)) && IsEffectiveAt(t, time)
  }

  // ---- The same, on numbers and windows

  /** Version `major.minor.patch` of the template is active, and its window is open. */
  ghost predicate IsCurrent(templates: set<Template>, id: string, time: int, t: Template, major: nat, minor: nat,
      patch: nat) {
    && t in templates && t.id == Some(id) && t.version == Some(Written(major, minor, patch))
    && t.status == Some("active")
    && t.effective.Some? && t.effective.value.start.At? && t.effective.value.start.time <= time
    && match t.effective.value.end
       case Absent => true
       case Unreadable => false
       case At(end) => time < end
  }

  /** No version that is current has a greater major number, nor with the same major number a
      greater minor number, nor with the same of both a greater patch number. */
  ghost predicate IsHighest(templates: set<Template>, id: string, time: int, t: Template) {
    exists a, b, c :: IsCurrent(templates, id, time, t, a, b, c)
      && forall u, x, y, z :: IsCurrent(templates, id, time, u, x, y, z) ==>
        x <= a && (x == a ==> y <= b) && (x == a && y == b ==> z <= c)
  }

  lemma CandidateIsCurrent(templates: set<Template>, id: string, time: int, t: Template, k: VersionKey)
    requires IsRegister(templates)
    ensures IsCurrent(templates, id, time, t, k.major, k.minor, k.patch) <==>
      IsCandidate(templates, id, time, t) && Key(t) == k
  {
    if t in templates {
      KeyIsWritten(t.version.value, k);
    }
  }

  /** The selected template has the highest version. */
  lemma SelectedIsHighest(templates: set<Template>, id: string, time: int, t: Template)
    requires IsRegister(templates)
    ensures IsSelected(templates, id, time, t) <==> IsHighest(templates, id, time, t)
  {
    hide IsCandidate, IsCurrent, Key;
    forall u, x, y, z
      ensures IsCurrent(templates, id, time, u, x, y, z) <==>
        IsCandidate(templates, id, time, u) && IsSound(u) && Key(u) == VersionKey(x, y, z)
    {
      CandidateIsCurrent(templates, id, time, u, VersionKey(x, y, z));
      if IsCandidate(templates, id, time, u) { CandidateIsSound(templates, id, time, u); }
    }
    if IsSelected(templates, id, time, t) {
      CandidateIsSound(templates, id, time, t);
      var k := Key(t);
      assert IsCurrent(templates, id, time, t, k.major, k.minor, k.patch);
    }
    if IsHighest(templates, id, time, t) {
      HighestIsSelected(templates, id, time, t);
    }
  }

  lemma HighestIsSelected(templates: set<Template>, id: string, time: int, t: Template)
    requires IsRegister(templates) && IsHighest(templates, id, time, t)
    ensures IsSelected(templates, id, time, t)
  {
    hide IsCandidate, IsCurrent;
    var a, b, c :| IsCurrent(templates, id, time, t, a, b, c)
      && forall u, x, y, z :: IsCurrent(templates, id, time, u, x, y, z) ==>
        x <= a && (x == a ==> y <= b) && (x == a && y == b ==> z <= c);
    CandidateIsCurrent(templates, id, time, t, VersionKey(a, b, c));
    CandidateIsSound(templates, id, time, t);
    forall u | IsCandidate(templates, id, time, u)
      ensures IsSound(u) && (u == t || Older(Key(u), Key(t)))
    {
      CandidateIsSound(templates, id, time, u);
      CandidateIsCurrent(templates, id, time, u, Key(u));
      if u != t {
        VersionsDiffer(templates, u, t);
      }
    }
  }

  ghost predicate NoneIsCurrent(templates: set<Template>, id: string, time: int) {
    forall t, a, b, c :: !IsCurrent(templates, id, time, t, a, b, c)
  }

  lemma NoCandidateIsCurrent(templates: set<Template>, id: string, time: int)
    requires IsRegister(templates) && forall t :: !IsCandidate(templates, id, time, t)
    ensures NoneIsCurrent(templates, id, time)
  {
    hide IsCandidate, IsCurrent;
    forall t, a, b, c ensures !IsCurrent(templates, id, time, t, a, b, c) {
      CandidateIsCurrent(templates, id, time, t, VersionKey(a, b, c));
    }
  }

  lemma CandidateIsSound(templates: set<Template>, id: string, time: int, t: Template)
    requires IsCandidate(templates, id, time, t)
    ensures IsSound(t) && t in templates && t.id == Some(id)
  {
  }

  lemma SelectionIsUnique(templates: set<Template>, id: string, time: int, t: Template, u: Template)
    requires IsSelected(templates, id, time, t) && IsSelected(templates, id, time, u)
    ensures t == u
  {
  }

  /** Two versions of one template never tie. */
  lemma VersionsDiffer(templates: set<Template>, t: Template, u: Template)
    requires IsRegister(templates) && t in templates && u in templates && t.id == u.id && t != u
    ensures Older(Key(t), Key(u)) || Older(Key(u), Key(t))
  {
    if Key(t) == Key(u) {
      KeyIsInjective(t.version.value, u.version.value);
    }
  }

  /** The selected version can be asked for at the same time, and whatever can be asked for without
      the inactive ones is not newer. */
  lemma SelectedIsNewestAvailable(templates: set<Template>, id: string, time: int, t: Template)
    requires IsRegister(templates) && t in templates
    ensures IsSelected(templates, id, time, t) <==>
      t.id == Some(id) && IsAvailable(templates, id, t.version.value, false, time, t)
      && forall version, u :: IsAvailable(templates, id, version, false, time, u) ==> u == t || Older(Key(u), Key(t))
  {
    forall u | IsCandidate(templates, id, time, u) ensures IsAvailable(templates, id, u.version.value, false, time, u) {
    }
  }

  /** No window of the template opens or closes after `from` and up to `to`. */
  ghost predicate NoBoundary(templates: set<Template>, id: string, from: int, to: int) {
    forall t :: t in templates && t.id == Some(id) && IsSound(t) ==>
      !(from < t.effective.value.start.time <= to)
        && (t.effective.value.end.At? ==> !(from < t.effective.value.end.time <= to))
  }

  /** Between the boundaries of the windows the selection does not change. */
  lemma SelectionIsConstant(templates: set<Template>, id: string, from: int, to: int, t: Template)
    requires IsRegister(templates) && from <= to && NoBoundary(templates, id, from, to)
    ensures IsSelected(templates, id, from, t) <==> IsSelected(templates, id, to, t)
  {
    forall u ensures IsCandidate(templates, id, from, u) <==> IsCandidate(templates, id, to, u) {
    }
  }

  // ---- The registry

  datatype Error = UnknownTemplate | UnknownVersion | NoActiveVersion | Inactive | NotEffective | BadTime

  datatype Result<T> = Ok(value: T) | Err(error: Error)

  /** Templates by identifier and version. */
  type Shelf = map<string, map<string, Template>>

  ghost predicate Files(shelf: Shelf, id: string, version: string) {
    id in shelf && version in shelf[id]
  }

  /** Every entry is sound and stands under its own identifier and version. */
  ghost predicate IsFiled(id: string, version: string, t: Template) {
    IsSound(t) && t.id == Some(id) && t.version == Some(version)
  }

  ghost predicate IsOrdered(shelf: Shelf) {
    && (forall id, version :: Files(shelf, id, version) ==> IsFiled(id, version, shelf[id][version]))
    && forall id :: id in shelf ==> shelf[id] != map[]
  }

  ghost function AllOf(shelf: Shelf): set<Template> {
    set id, version | id in shelf && version in shelf[id] :: shelf[id][version]
  }

  lemma FiledIsMember(shelf: Shelf, id: string, version: string)
    requires Files(shelf, id, version)
    ensures shelf[id][version] in AllOf(shelf)
  {
  }

  lemma MemberIsFiled(shelf: Shelf, t: Template)
    requires IsOrdered(shelf) && t in AllOf(shelf)
    ensures IsSound(t) && t.id.Some? && t.version.Some? && Files(shelf, t.id.value, t.version.value)
      && shelf[t.id.value][t.version.value] == t
  {
    hide IsSound;
    var id, version :| id in shelf && version in shelf[id] && shelf[id][version] == t;
    assert Files(shelf, id, version);
    FiledIsSound(id, version, t);
  }

  lemma FiledIsSound(id: string, version: string, t: Template)
    requires IsFiled(id, version, t)
    ensures IsSound(t) && t.id == Some(id) && t.version == Some(version)
  {
  }

  lemma ShelfIsRegister(shelf: Shelf)
    requires IsOrdered(shelf)
    ensures IsRegister(AllOf(shelf))
  {
    hide IsSound, IsOrdered, AllOf;
    forall t | t in AllOf(shelf)
      ensures IsSound(t) && t.id.Some? && t.version.Some? && Files(shelf, t.id.value, t.version.value)
      ensures shelf[t.id.value][t.version.value] == t
    {
      MemberIsFiled(shelf, t);
    }
  }

  lemma KnownIsFiled(shelf: Shelf, id: string)
    requires IsOrdered(shelf)
    ensures id in shelf <==> IsKnown(AllOf(shelf), id)
  {
    hide IsSound, AllOf;
    if id in shelf {
      var version :| version in shelf[id];
      assert Files(shelf, id, version);
      FiledIsMember(shelf, id, version);
      FiledIsSound(id, version, shelf[id][version]);
    }
    if IsKnown(AllOf(shelf), id) {
      var t :| t in AllOf(shelf) && t.id == Some(id);
      MemberIsFiled(shelf, t);
    }
  }

  /** The candidates are the entries under the identifier that pass the two tests. */
  lemma CandidatesAreFiled(shelf: Shelf, id: string, time: int, t: Template)
    requires IsOrdered(shelf)
    ensures IsCandidate(AllOf(shelf), id, time, t) <==>
      t.version.Some? && Files(shelf, id, t.version.value) && shelf[id][t.version.value] == t && IsSound(t)
        && IsActive(t) && IsEffectiveAt(t, time)
  {
    hide IsSound, AllOf, IsActive, IsEffectiveAt, IsOrdered;
    if t in AllOf(shelf) {
      MemberIsFiled(shelf, t);
    }
    if t.version.Some? && Files(shelf, id, t.version.value) && shelf[id][t.version.value] == t {
      FiledIsMember(shelf, id, t.version.value);
      FiledHasKeys(shelf, id, t.version.value);
    }
  }

  lemma FiledHasKeys(shelf: Shelf, id: string, version: string)
    requires IsOrdered(shelf) && Files(shelf, id, version)
    ensures IsSound(shelf[id][version]) && shelf[id][version].id == Some(id)
      && shelf[id][version].version == Some(version)
  {
    hide IsSound;
    assert IsFiled(id, version, shelf[id][version]);
    FiledIsSound(id, version, shelf[id][version]);
  }

  /** Active, effective, and the newest such among the versions seen. */
  ghost predicate IsNewest(shelf: Shelf, id: string, time: int, seen: set<string>, best: string)
    requires IsOrdered(shelf)
  {
    && best in seen && Eligible(shelf, id, time, best)
    && forall v :: v in seen && Eligible(shelf, id, time, v) ==> v == best || NewerThan(shelf, id, v, best)
  }

  ghost predicate Eligible(shelf: Shelf, id: string, time: int, version: string)
    requires IsOrdered(shelf)
  {
    Files(shelf, id, version)
      && (FiledHasKeys(shelf, id, version); IsActive(shelf[id][version]) && IsEffectiveAt(shelf[id][version], time))
  }

  ghost predicate NewerThan(shelf: Shelf, id: string, a: string, b: string)
    requires IsOrdered(shelf)
  {
    && Files(shelf, id, a) && Files(shelf, id, b)
    && (FiledHasKeys(shelf, id, a); FiledHasKeys(shelf, id, b); Older(Key(shelf[id][a]), Key(shelf[id][b])))
  }

  lemma NewerIsTransitive(shelf: Shelf, id: string, a: string, b: string, c: string)
    requires IsOrdered(shelf) && NewerThan(shelf, id, a, b) && NewerThan(shelf, id, b, c)
    ensures NewerThan(shelf, id, a, c)
  {
    hide IsOrdered, IsSound, Key;
  }

  lemma OneIsNewer(shelf: Shelf, id: string, a: string, b: string)
    requires IsOrdered(shelf) && Files(shelf, id, a) && Files(shelf, id, b) && a != b
    ensures NewerThan(shelf, id, a, b) || NewerThan(shelf, id, b, a)
  {
    hide IsOrdered, IsSound;
    FiledHasKeys(shelf, id, a);
    FiledHasKeys(shelf, id, b);
    FiledIsMember(shelf, id, a);
    FiledIsMember(shelf, id, b);
    ShelfIsRegister(shelf);
    VersionsDiffer(AllOf(shelf), shelf[id][a], shelf[id][b]);
  }

  lemma NewestIsSelected(shelf: Shelf, id: string, time: int, best: string)
    requires IsOrdered(shelf) && id in shelf && IsNewest(shelf, id, time, shelf[id].Keys, best)
    ensures Files(shelf, id, best) && IsSelected(AllOf(shelf), id, time, shelf[id][best])
  {
    hide IsOrdered, IsSound, IsCandidate, IsActive, IsEffectiveAt, AllOf, Key;
    FiledHasKeys(shelf, id, best);
    CandidatesAreFiled(shelf, id, time, shelf[id][best]);
    forall u | IsCandidate(AllOf(shelf), id, time, u)
      ensures IsSound(u) && (u == shelf[id][best] || Older(Key(u), Key(shelf[id][best]))) {
      CandidatesAreFiled(shelf, id, time, u);
      assert Eligible(shelf, id, time, u.version.value);
    }
  }

  lemma NothingIsCandidate(shelf: Shelf, id: string, time: int)
    requires IsOrdered(shelf) && id in shelf && forall v :: v in shelf[id] ==> !Eligible(shelf, id, time, v)
    ensures forall t :: !IsCandidate(AllOf(shelf), id, time, t)
  {
    hide IsOrdered, IsSound, IsCandidate, IsActive, IsEffectiveAt, AllOf;
    forall t ensures !IsCandidate(AllOf(shelf), id, time, t) {
      CandidatesAreFiled(shelf, id, time, t);
    }
  }

  lemma NewestIsHighest(shelf: Shelf, id: string, time: int, best: string)
    requires IsOrdered(shelf) && id in shelf && IsNewest(shelf, id, time, shelf[id].Keys, best)
    ensures Files(shelf, id, best) && IsSelected(AllOf(shelf), id, time, shelf[id][best])
    ensures IsHighest(AllOf(shelf), id, time, shelf[id][best])
  {
    hide IsOrdered, IsNewest, IsSelected, IsHighest, AllOf, IsRegister;
    NewestIsSelected(shelf, id, time, best);
    ShelfIsRegister(shelf);
    SelectedIsHighest(AllOf(shelf), id, time, shelf[id][best]);
  }

  lemma NothingIsCurrent(shelf: Shelf, id: string, time: int)
    requires IsOrdered(shelf) && id in shelf && forall v :: v in shelf[id] ==> !Eligible(shelf, id, time, v)
    ensures forall t :: !IsCandidate(AllOf(shelf), id, time, t)
    ensures NoneIsCurrent(AllOf(shelf), id, time)
  {
    hide *;
    NothingIsCandidate(shelf, id, time);
    ShelfIsRegister(shelf);
    NoCandidateIsCurrent(AllOf(shelf), id, time);
  }

  // ---- The registry itself

  type Table = map<string, map<string, TemplateDict>>

  /** The dictionary and the one nested in it belong to `owned`. */
  ghost predicate IsOwned(dict: TemplateDict, owned: set<object>)
    reads owned
  {
    dict in owned && (dict.effective != null ==> dict.effective in owned)
  }

  class TemplateVersionRegistry {
    var templatesById: Table
    ghost var Repr: set<object>

    ghost predicate Owns()
      reads this, Repr
    {
      this in Repr && forall id, version :: id in templatesById && version in templatesById[id] ==>
        IsOwned(templatesById[id][version], Repr)
    }

    ghost function Contents(): Shelf
      requires Owns()
      reads this, Repr
    {
      map id | id in templatesById :: map version | version in templatesById[id] :: templatesById[id][version].Value()
    }

    ghost predicate Valid()
      reads this, Repr
    {
      Owns() && IsOrdered(Contents())
    }

    /** The templates registered. */
    ghost function Registered(): set<Template>
      requires Valid()
      reads this, Repr
    {
      AllOf(Contents())
    }

    constructor (table: Table, ghost owned: set<object>)
      requires forall id, version :: id in table && version in table[id] ==> IsOwned(table[id][version], owned)
      ensures Owns() && Repr == owned + {this} && templatesById == table
    {
      templatesById := table;
      Repr := owned + {this};
    }

    /** `select_active`; `now` is the clock, read when no time is given. */
    method SelectActive(id: string, asOf: Stamp, now: int) returns (r: Result<TemplateDict>)
      requires Valid()
      ensures r == Err(UnknownTemplate) <==> !IsKnown(Registered(), id)
      ensures r == Err(BadTime) <==> IsKnown(Registered(), id) && asOf.Unreadable?
      ensures r.Ok? ==> fresh(r.value) && (r.value.effective != null ==> fresh(r.value.effective))
      ensures r.Ok? ==> IsSelected(Registered(), id, TimeOf(asOf, now), r.value.Value())
      ensures r.Ok? ==> IsHighest(Registered(), id, TimeOf(asOf, now), r.value.Value())
      ensures r == Err(NoActiveVersion) ==> forall t :: !IsCandidate(Registered(), id, TimeOf(asOf, now), t)
      ensures r == Err(NoActiveVersion) ==> NoneIsCurrent(Registered(), id, TimeOf(asOf, now))
      ensures r.Err? ==> r.error == UnknownTemplate || r.error == BadTime || r.error == NoActiveVersion
    {
      hide IsOrdered, IsSound, IsActive, IsEffectiveAt, Key, IsNewest, Eligible, NewerThan, IsCandidate, IsSelected,
        IsHighest, IsRegister, NoneIsCurrent, AllOf, IsKnown;
      ghost var shelf := Contents();
      KnownIsFiled(shelf, id);
      if id !in templatesById {
        return Err(UnknownTemplate);
      }
      if asOf.Unreadable? {
        return Err(BadTime);
      }
      var time := if asOf == Absent then now else asOf.time;
      var best := Newest(templatesById[id], time, shelf, id);
      if best.None? {
        NothingIsCurrent(shelf, id, TimeOf(asOf, now));
        return Err(NoActiveVersion);
      }
      NewestIsHighest(shelf, id, TimeOf(asOf, now), best.value);
      var copy := DeepCopy(templatesById[id][best.value]);
      return Ok(copy);
    }

    /** `get_version`, with the errors in the order of its checks. */
    method GetVersion(id: string, version: string, includeInactive: bool, asOf: Stamp, now: int)
      returns (r: Result<TemplateDict>)
      requires Valid()
      ensures r == Err(UnknownVersion) <==> forall t :: !IsRegistered(Registered(), id, version, t)
      ensures r == Err(Inactive) <==>
        !includeInactive && exists t :: IsRegistered(Registered(), id, version, t) && !IsActive(t)
      ensures r == Err(BadTime) <==>
        asOf.Unreadable? && exists t :: IsRegistered(Registered(), id, version, t) && (includeInactive || IsActive(t))
      ensures r.Ok? <==>
        !asOf.Unreadable?
        && exists t :: IsAvailable(Registered(), id, version, includeInactive, TimeOf(asOf, now), t)
      ensures r.Ok? ==> fresh(r.value) && (r.value.effective != null ==> fresh(r.value.effective))
      ensures r.Ok? ==> IsAvailable(Registered(), id, version, includeInactive, TimeOf(asOf, now), r.value.Value())
      ensures r.Err? ==> r.error == UnknownVersion || r.error == Inactive || r.error == BadTime || r.error == NotEffective
    {
      hide IsOrdered, IsSound, IsActive, IsEffectiveAt, AllOf;
      ghost var shelf, templates := Contents(), Registered();
      RegisteredIsFiled(shelf, id, version);
      if id !in templatesById || version !in templatesById[id] {
        return Err(UnknownVersion);
      }
      assert Files(shelf, id, version);
      FiledHasKeys(shelf, id, version);
      var t := templatesById[id][version].Value();
      assert IsRegistered(templates, id, version, t);
      if !IsActive(t) && !includeInactive {
        return Err(Inactive);
      }
      if asOf.Unreadable? {
        return Err(BadTime);
      }
      var time := if asOf == Absent then now else asOf.time;
      if !IsEffectiveAt(t, time) {
        return Err(NotEffective);
      }
      assert IsAvailable(AllOf(shelf), id, version, includeInactive, TimeOf(asOf, now), t);
      var copy := DeepCopy(templatesById[id][version]);
      assert Registered() == templates;
      return Ok(copy);
    }
  }

  lemma RegisteredIsFiled(shelf: Shelf, id: string, version: string)
    requires IsOrdered(shelf)
    ensures forall t :: IsRegistered(AllOf(shelf), id, version, t) <==>
      Files(shelf, id, version) && shelf[id][version] == t
    ensures forall t :: IsRegistered(AllOf(shelf), id, version, t) ==> IsSound(t)
  {
    hide IsSound, AllOf, IsOrdered;
    if Files(shelf, id, version) {
      FiledIsMember(shelf, id, version);
      FiledHasKeys(shelf, id, version);
    }
    forall t | IsRegistered(AllOf(shelf), id, version, t)
      ensures IsSound(t) && Files(shelf, id, version) && shelf[id][version] == t {
      MemberIsFiled(shelf, t);
    }
  }

  /** The loop over the versions of a template: the newest that is active and effective. */
  method Newest(versions: map<string, TemplateDict>, time: int, ghost shelf: Shelf, ghost id: string)
    returns (best: Option<string>)
    requires IsOrdered(shelf) && id in shelf && shelf[id].Keys == versions.Keys
    requires forall v :: v in versions ==> versions[v].Value() == shelf[id][v]
    ensures best.None? ==> forall v :: v in shelf[id] ==> !Eligible(shelf, id, time, v)
    ensures best.Some? ==> best.value in versions && IsNewest(shelf, id, time, shelf[id].Keys, best.value)
  {
    hide IsOrdered, IsSound, IsActive, IsEffectiveAt;
    best := None;
    var todo := versions.Keys;
    ghost var seen: set<string> := {};
    while todo != {}
      invariant seen + todo == versions.Keys && seen !! todo
      invariant best.None? ==> forall v :: v in seen ==> !Eligible(shelf, id, time, v)
      invariant best.Some? ==> best.value in versions && IsNewest(shelf, id, time, seen, best.value)
      decreases todo
    {
      var v :| v in todo;
      todo := todo - {v};
      assert Files(shelf, id, v);
      FiledHasKeys(shelf, id, v);
      var t := versions[v].Value();
      if IsActive(t) && IsEffectiveAt(t, time) {
        if best.None? {
          best := Some(v);
        } else {
          FiledHasKeys(shelf, id, best.value);
          NewerStays(shelf, id, time, seen, best.value, v);
          if Older(Key(versions[best.value].Value()), Key(t)) {
            best := Some(v);
          }
        }
      }
      seen := seen + {v};
    }
    assert seen == shelf[id].Keys;
  }

  lemma NewerStays(shelf: Shelf, id: string, time: int, seen: set<string>, best: string, v: string)
    requires IsOrdered(shelf) && IsNewest(shelf, id, time, seen, best) && v !in seen && Eligible(shelf, id, time, v)
    ensures NewerThan(shelf, id, best, v) ==> IsNewest(shelf, id, time, seen + {v}, v)
    ensures !NewerThan(shelf, id, best, v) ==> IsNewest(shelf, id, time, seen + {v}, best)
  {
    hide IsOrdered, NewerThan;
    EligibleIsFiled(shelf, id, time, v);
    EligibleIsFiled(shelf, id, time, best);
    OneIsNewer(shelf, id, best, v);
    if NewerThan(shelf, id, best, v) {
      forall u | u in seen && Eligible(shelf, id, time, u) ensures u == v || NewerThan(shelf, id, u, v) {
        if u != best {
          NewerIsTransitive(shelf, id, u, best, v);
        }
      }
    }
  }

  lemma EligibleIsFiled(shelf: Shelf, id: string, time: int, v: string)
    requires IsOrdered(shelf) && Eligible(shelf, id, time, v)
    ensures Files(shelf, id, v)
  {
  }

  ghost function TimeOf(asOf: Stamp, now: int): int {
    if asOf.At? then asOf.time else now
  }

  // ---- Registering

  /** The nested dictionaries of the templates; templates may share them. */
  ghost function Windows(templates: seq<TemplateDict>): set<object>
    reads templates
  {
    set t | t in templates && t.effective != null :: t.effective
  }

  /** What the templates hold, one after another. */
  ghost function Supplied(templates: seq<TemplateDict>): (data: seq<Template>)
    reads templates, Windows(templates)
    ensures |data| == |templates|
  {
    seq(|templates|, i requires 0 <= i < |templates| reads templates, Windows(templates) => templates[i].Value())
  }

  /** Every template is sound and no identifier and version come twice. */
  ghost predicate IsAcceptable(templates: seq<Template>) {
    && (forall i :: 0 <= i < |templates| ==> IsSound(templates[i]))
    && forall i, k :: 0 <= i < k < |templates| ==> !SameVersion(templates[i], templates[k])
  }

  ghost function SetOf(templates: seq<Template>): set<Template> {
    set t | t in templates
  }

  /** The template is entered under its identifier and version. */
  ghost function Filing(shelf: Shelf, id: string, version: string, t: Template): Shelf {
    shelf[id := (if id in shelf then shelf[id] else map[])[version := t]]
  }

  function FilingDict(table: Table, id: string, version: string, dict: TemplateDict): Table {
    var versions: map<string, TemplateDict> := if id in table then table[id] else map[];
    table[id := versions[version := dict]]
  }

  lemma FilingKeepsOrder(shelf: Shelf, id: string, version: string, t: Template)
    requires IsOrdered(shelf) && IsFiled(id, version, t) && !Files(shelf, id, version)
    ensures IsOrdered(Filing(shelf, id, version, t))
    ensures AllOf(Filing(shelf, id, version, t)) == AllOf(shelf) + {t}
  {
    hide IsFiled;
    var more := Filing(shelf, id, version, t);
    assert more[id][version] == t;
    forall i, v | Files(more, i, v) ensures IsFiled(i, v, more[i][v]) {
      assert (i == id && v == version) || Files(shelf, i, v);
    }
    forall u ensures u in AllOf(more) <==> u in AllOf(shelf) + {t} {
      if u in AllOf(more) && u != t {
        var i, v :| i in more && v in more[i] && more[i][v] == u;
        assert Files(shelf, i, v) && shelf[i][v] == u;
      }
      if u in AllOf(shelf) {
        var i, v :| i in shelf && v in shelf[i] && shelf[i][v] == u;
        assert i in more && v in more[i];
        assert more[i][v] == u;
      }
    }
  }

  /** A version is filed already exactly when the set of templates has it. */
  lemma FiledAlready(shelf: Shelf, t: Template)
    requires IsOrdered(shelf) && t.id.Some? && t.version.Some?
    ensures Files(shelf, t.id.value, t.version.value) <==> exists u :: u in AllOf(shelf) && SameVersion(u, t)
  {
    hide IsSound, IsOrdered, AllOf;
    if Files(shelf, t.id.value, t.version.value) {
      FiledIsMember(shelf, t.id.value, t.version.value);
      FiledHasKeys(shelf, t.id.value, t.version.value);
    }
    if u :| u in AllOf(shelf) && SameVersion(u, t) {
      MemberIsFiled(shelf, u);
    }
  }

  lemma AcceptMore(templates: seq<Template>, t: Template)
    ensures IsAcceptable(templates + [t]) <==>
      IsAcceptable(templates) && IsSound(t) && !(exists u :: u in SetOf(templates) && SameVersion(u, t))
    ensures SetOf(templates + [t]) == SetOf(templates) + {t}
  {
    hide IsSound;
    var more := templates + [t];
    assert more[|templates|] == t;
    assert forall i :: 0 <= i < |templates| ==> more[i] == templates[i] && templates[i] in SetOf(templates);
  }

  lemma {:induction false} AcceptedPrefix(templates: seq<Template>, n: nat)
    requires n <= |templates| && IsAcceptable(templates)
    ensures IsAcceptable(templates[..n])
  {
    hide IsSound, SameVersion;
  }

  /** The table of dictionaries holds the templates of the shelf, each in dictionaries of its own
      registry. */
  ghost predicate Holds(table: Table, shelf: Shelf, owned: set<object>)
    reads owned
  {
    && table.Keys == shelf.Keys
    && (forall id :: id in table ==> table[id].Keys == shelf[id].Keys)
    && (forall id, version :: id in table && version in table[id] ==>
          IsOwned(table[id][version], owned) && table[id][version].Value() == shelf[id][version])
  }

  lemma EmptyShelf()
    ensures IsOrdered(map[]) && AllOf(map[]) == {} && IsAcceptable([]) && SetOf([]) == {} && Holds(map[], map[], {})
  {
  }

  /** The checks of one template, in order. */
  method CheckTemplate(t: Template) returns (sound: bool)
    ensures sound <==> IsSound(t)
  {
    if t.id.None? || t.id.value == "" || t.version.None? || t.version.value == "" {
      return false;
    }
    if KeyOf(t.version.value).None? {
      return false;
    }
    if t.status.None? || t.status.value !in {"active", "inactive"} {
      return false;
    }
    if t.effective.None? {
      return false;
    }
    match t.effective.value {
      case Window(At(from), At(until)) => sound := from < until;
      case Window(At(_), Absent) => sound := true;
      case _ => sound := false;
    }
  }

  /** The loop of the constructor: every template is copied in. None stands for the exception raised
      for a template that is not sound or comes twice. */
  method CopyIn(templates: seq<TemplateDict>, ghost data: seq<Template>)
    returns (filed: Option<Table>, ghost shelf: Shelf, ghost owned: set<object>)
    requires AreValues(templates, data)
    ensures filed.Some? <==> IsAcceptable(data)
    ensures filed.Some? ==> fresh(owned) && Holds(filed.value, shelf, owned)
    ensures filed.Some? ==> IsOrdered(shelf) && AllOf(shelf) == SetOf(data)
  {
    hide IsSound, IsOrdered, AllOf, IsAcceptable, Filing, FilingDict, SetOf, Holds;
    var table: Table := map[];
    shelf, owned := map[], {};
    EmptyShelf();
    for i := 0 to |templates|
      invariant AreValues(templates, data)
      invariant fresh(owned) && Holds(table, shelf, owned)
      invariant IsOrdered(shelf) && AllOf(shelf) == SetOf(data[..i]) && IsAcceptable(data[..i])
    {
      assert data[..i + 1] == data[..i] + [data[i]];
      AcceptMore(data[..i], data[i]);
      var t := templates[i].Value();
      if IsAcceptable(data) { AcceptedPrefix(data, i + 1); }
      var sound := CheckTemplate(t);
      if !sound {
        return None, shelf, owned;
      }
      SoundHasKeys(t);
      var id, version := t.id.value, t.version.value;
      FiledAlready(shelf, t);
      HoldsSameKeys(table, shelf, owned, id, version);
      if id in table && version in table[id] {
        return None, shelf, owned;
      }
      FilingKeepsOrder(shelf, id, version, t);
      var copy := DeepCopy(templates[i]);
      ghost var more: set<object> := if copy.effective == null then {copy} else {copy, copy.effective};
      FilingHolds(table, shelf, owned, id, version, copy, more);
      table := FilingDict(table, id, version, copy);
      shelf, owned := Filing(shelf, id, version, t), owned + more;
    }
    assert data[..|data|] == data;
    filed := Some(table);
  }

  /** The registry's constructor; None stands for its exception. */
  method Register(templates: seq<TemplateDict>) returns (registry: Option<TemplateVersionRegistry>)
    ensures registry.Some? <==> IsAcceptable(Supplied(templates))
    ensures registry.Some? ==> fresh(registry.value) && registry.value.Owns() && fresh(registry.value.Repr)
    ensures registry.Some? ==> registry.value.Valid() && registry.value.Registered() == SetOf(Supplied(templates))
  {
    hide IsSound, IsOrdered, AllOf, IsAcceptable, SetOf, Holds, Supplied;
    ghost var data := Supplied(templates);
    AreSupplied(templates, data);
    var filed, shelf, owned := CopyIn(templates, data);
    AreSupplied(templates, data);
    if filed.None? {
      return None;
    }
    HoldsIsOwned(filed.value, shelf, owned);
    var r := new TemplateVersionRegistry(filed.value, owned);
    HoldsIsContents(r, shelf, owned);
    AreSupplied(templates, data);
    return Some(r);
  }

  /** `data` is what the templates hold. */
  ghost predicate AreValues(templates: seq<TemplateDict>, data: seq<Template>)
    reads templates, Windows(templates)
  {
    |data| == |templates| && forall i :: 0 <= i < |templates| ==> templates[i].Value() == data[i]
  }

  lemma AreSupplied(templates: seq<TemplateDict>, data: seq<Template>)
    ensures AreValues(templates, data) <==> data == Supplied(templates)
  {
  }

  lemma HoldsSameKeys(table: Table, shelf: Shelf, owned: set<object>, id: string, version: string)
    requires Holds(table, shelf, owned)
    ensures id in table && version in table[id] <==> Files(shelf, id, version)
  {
  }

  lemma HoldsIsOwned(table: Table, shelf: Shelf, owned: set<object>)
    requires Holds(table, shelf, owned)
    ensures forall id, version :: id in table && version in table[id] ==> IsOwned(table[id][version], owned)
  {
  }

  lemma SoundHasKeys(t: Template)
    requires IsSound(t)
    ensures t.id.Some? && t.version.Some? && IsFiled(t.id.value, t.version.value, t)
  {
  }

  lemma FilingHolds(table: Table, shelf: Shelf, owned: set<object>, id: string, version: string, copy: TemplateDict,
      more: set<object>)
    requires Holds(table, shelf, owned) && IsOwned(copy, more)
    ensures Holds(FilingDict(table, id, version, copy), Filing(shelf, id, version, copy.Value()), owned + more)
  {
  }

  lemma HoldsIsContents(r: TemplateVersionRegistry, shelf: Shelf, owned: set<object>)
    requires Holds(r.templatesById, shelf, owned) && r.Owns()
    ensures r.Contents() == shelf
  {
    forall id | id in shelf ensures r.Contents()[id] == shelf[id] {
    }
  }

  // ---- Copies in, copies out

  /** Rewriting a window that the registry does not own changes nothing in it. */
  method RewriteWindow(registry: TemplateVersionRegistry, window: WindowDict, start: Stamp, end: Stamp)
    requires registry.Valid() && window !in registry.Repr
    modifies window
    ensures registry.Valid() && registry.Registered() == old(registry.Registered())
    ensures window.start == start && window.end == end
  {
    hide *;
    window.start, window.end := start, end;
  }

  /** Nor does rewriting a template that it does not own, its reference to a window included. */
  method RewriteTemplate(registry: TemplateVersionRegistry, dict: TemplateDict, status: Option<string>,
      window: WindowDict?)
    requires registry.Valid() && dict !in registry.Repr
    modifies dict
    ensures registry.Valid() && registry.Registered() == old(registry.Registered())
    ensures dict.status == status && dict.effective == window
  {
    hide *;
    dict.status, dict.effective := status, window;
  }

  /** Whatever is written to a supplied template or its window after registration, and to a returned
      template or its window, changes no answer: the second answer is the first one as it was
      returned. */
  method AnswersAreIsolated(supplied: seq<TemplateDict>, index: nat, id: string, asOf: Stamp, now: int,
      start: Stamp, end: Stamp, status: Option<string>) returns (first: Option<Template>, second: Option<Template>)
    requires index < |supplied|
    modifies supplied, Windows(supplied)
    ensures first == second
    ensures first.Some? ==> IsSelected(SetOf(old(Supplied(supplied))), id, TimeOf(asOf, now), first.value)
  {
    hide IsSelected, IsAcceptable, SetOf, IsOrdered, AllOf;
    first, second := None, None;
    var registry := Register(supplied);
    if registry.Some? {
      Scribble(registry.value, supplied[index], start, end, status);
      first, second := AskTwice(registry.value, id, asOf, now, start, end, status);
    }
  }

  /** Asks, writes to the answer, and asks again. */
  method AskTwice(registry: TemplateVersionRegistry, id: string, asOf: Stamp, now: int,
      start: Stamp, end: Stamp, status: Option<string>) returns (first: Option<Template>, second: Option<Template>)
    requires registry.Valid()
    ensures first == second
    ensures first.Some? ==> IsSelected(registry.Registered(), id, TimeOf(asOf, now), first.value)
  {
    hide IsSelected, IsKnown, IsCandidate, IsOrdered, AllOf;
    first, second := None, None;
    ghost var templates := registry.Registered();
    var answer := registry.SelectActive(id, asOf, now);
    if answer.Ok? {
      first := Some(answer.value.Value());
      Scribble(registry, answer.value, start, end, status);
      var again := registry.SelectActive(id, asOf, now);
      SameAnswer(templates, id, TimeOf(asOf, now), first.value,
        match again { case Ok(dict) => Ok(dict.Value()) case Err(e) => Err(e) });
      second := Some(again.value.Value());
    }
  }

  /** Writes to the window of a template, then to the template. */
  method Scribble(registry: TemplateVersionRegistry, dict: TemplateDict, start: Stamp, end: Stamp,
      status: Option<string>)
    requires registry.Valid() && dict.IsApartFrom(registry.Repr)
    modifies dict, dict.effective
    ensures registry.Valid() && registry.Registered() == old(registry.Registered())
      && registry.Repr == old(registry.Repr)
  {
    if dict.effective != null {
      RewriteWindow(registry, dict.effective, start, end);
    }
    RewriteTemplate(registry, dict, status, null);
  }

  lemma SameAnswer(templates: set<Template>, id: string, time: int, first: Template, again: Result<Template>)
    requires IsSelected(templates, id, time, first)
    requires again == Err(UnknownTemplate) ==> !IsKnown(templates, id)
    requires again.Err? ==>
      again.error == UnknownTemplate
      || (again.error == NoActiveVersion && forall t :: !IsCandidate(templates, id, time, t))
    requires again.Ok? ==> IsSelected(templates, id, time, again.value)
    ensures again.Ok? && again.value == first
  {
    if again.Ok? {
      SelectionIsUnique(templates, id, time, first, again.value);
    }
  }
}
