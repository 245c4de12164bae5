/** The nested output dictionary that confirmed values are written into, as the heap of
    mutable dicts the source builds (core/ir/template_fingerprint.py, `_set_output_value`). */
module OutputTree {
  import opened Prelude
  import opened OutputPaths

  /** A position in the nested output: the root dict, or a key of the dict at a position. */
  datatype Place = Root | At(dir: Place, key: string)

  ghost function PlaceOf(path: Path): (place: Place)
    ensures place.Root? <==> path == []
  {
    if path == [] then Root else At(PlaceOf(path[..|path| - 1]), path[|path| - 1])
  }

  /** `p` is `q` or lies below it. */
  ghost predicate Within(p: Place, q: Place) {
    p == q || (p.At? && Within(p.dir, q))
  }

  lemma {:induction false} WithinIsPrefix(a: Path, b: Path)
    ensures Within(PlaceOf(b), PlaceOf(a)) <==> a <= b
    ensures PlaceOf(a) == PlaceOf(b) <==> a == b
    decreases |a| + |b|
  {
    if b == [] {
    } else if a == [] {
      WithinIsPrefix(a, b[..|b| - 1]);
    } else {
      WithinIsPrefix(a, b[..|b| - 1]);
      WithinIsPrefix(a[..|a| - 1], b[..|b| - 1]);
      assert a == a[..|a| - 1] + [a[|a| - 1]] && b == b[..|b| - 1] + [b[|b| - 1]];
    }
  }

  datatype OutputEntry = Text(value: string) | Nested(dict: OutputDict)

  /** One Python dict of the nested output. */
  class OutputDict {
    var entries: map<string, OutputEntry>

    constructor ()
      ensures entries == map[]
    {
      entries := map[];
    }
  }

  /** The dict at each position that has one. */
  type Dirs = map<Place, OutputDict>
  /** The entry at each position that has one. */
  type Cells = map<Place, OutputEntry>
  /** What the output says: the text value at each position that holds one. */
  type Leaves = map<Place, string>

  ghost function LeavesOf(cells: Cells): Leaves {
    map p | p in cells && cells[p].Text? :: cells[p].value
  }

  /** Writing at `place` replaces whatever stood there, below it, or on the way to it. */
  ghost function PutLeaf(leaves: Leaves, place: Place, value: string): Leaves {
    if place.Root? then leaves
    else (map p | p in leaves && !Within(p, place) && !Within(place, p) :: leaves[p])[place := value]
  }

  /** The dicts are the root and the nested entries, no dict stands at two positions,
      and every entry stands in a dict. */
  ghost predicate Coherent(dirs: Dirs, cells: Cells) {
    && Root in dirs
    && (forall p, q :: p in dirs && q in dirs && p != q ==> dirs[p] != dirs[q])
    && (forall p :: p in cells ==> p.At?)
    && (forall p {:trigger p.dir} :: p in cells ==> p.dir in dirs)
    && (forall p :: p in dirs && p.At? ==> p in cells && cells[p] == Nested(dirs[p]))
    && (forall p :: p in cells && cells[p].Nested? ==> p in dirs && dirs[p] == cells[p].dict)
  }

  ghost function Detached<T>(m: map<Place, T>, target: Place): map<Place, T> {
    map p | p in m && !Within(p, target) :: m[p]
  }

  /** The entries of the dict at `p`. */
  ghost function EntriesAt(cells: Cells, p: Place): (entries: map<string, OutputEntry>)
    ensures forall k {:trigger k in entries} :: k in entries <==> At(p, k) in cells
    ensures forall k {:trigger entries[k]} :: k in entries ==> entries[k] == cells[At(p, k)]
  {
    var keys := set c | c in cells && c.At? && c.dir == p :: c.key;
    assert forall k :: At(p, k) in cells ==> At(p, k).key in keys;
    map k | k in keys :: cells[At(p, k)]
  }

  lemma EntriesEntered(cells: Cells, here: Place, entry: OutputEntry, p: Place)
    requires here.At?
    ensures EntriesAt(cells[here := entry], p)
         == if p == here.dir then EntriesAt(cells, p)[here.key := entry] else EntriesAt(cells, p)
  {
  }

  lemma EntriesDetached(cells: Cells, target: Place, p: Place)
    requires target.At? && !Within(p, target)
    ensures EntriesAt(Detached(cells, target), p)
         == EntriesAt(cells, p) - (if p == target.dir then {target.key} else {})
  {
  }

  lemma EntriesStored(cells: Cells, target: Place, entry: OutputEntry, p: Place)
    requires target.At? && !Within(p, target)
    ensures EntriesAt(Detached(cells, target)[target := entry], p)
         == if p == target.dir then EntriesAt(cells, p)[target.key := entry] else EntriesAt(cells, p)
  {
    EntriesDetached(cells, target, p);
    EntriesEntered(Detached(cells, target), target, entry, p);
  }

  /** No dict is empty, except perhaps the root and the one at `besides`. */
  ghost predicate Filled(dirs: Dirs, cells: Cells, besides: Place) {
    forall p :: p in dirs && p.At? && p != besides ==> EntriesAt(cells, p) != map[]
  }

  lemma EnterExisting(dirs: Dirs, cells: Cells, here: Place)
    requires Coherent(dirs, cells) && here.At? && Filled(dirs, cells, here.dir)
    requires here in cells && cells[here].Nested?
    ensures here in dirs && dirs[here] == cells[here].dict
    ensures Filled(dirs, cells, here)
    ensures LeavesOf(cells) == LeavesOf(cells) - {here}
  {
    assert here.key in EntriesAt(cells, here.dir);
  }

  lemma MakeCoherent(dirs: Dirs, cells: Cells, here: Place, next: OutputDict)
    requires Coherent(dirs, cells) && here.At? && here.dir in dirs
    requires here in cells ==> cells[here].Text?
    requires next !in dirs.Values
    ensures Coherent(dirs[here := next], cells[here := Nested(next)])
  {
    assert forall p :: p in dirs ==> dirs[p] in dirs.Values;
  }

  lemma MadeEmpty(dirs: Dirs, cells: Cells, here: Place, next: OutputDict)
    requires Coherent(dirs, cells) && here.At?
    requires here in cells ==> cells[here].Text?
    ensures EntriesAt(cells[here := Nested(next)], here) == map[]
  {
    assert here !in dirs;
    EntriesEntered(cells, here, Nested(next), here);
  }

  lemma MakeFills(dirs: Dirs, cells: Cells, here: Place, next: OutputDict)
    requires here.At? && Filled(dirs, cells, here.dir)
    requires here in cells ==> cells[here].Text?
    ensures Filled(dirs[here := next], cells[here := Nested(next)], here)
    ensures LeavesOf(cells[here := Nested(next)]) == LeavesOf(cells) - {here}
  {
    forall p | p in dirs && p.At? && p != here
      ensures EntriesAt(cells[here := Nested(next)], p) != map[]
    {
      EntriesEntered(cells, here, Nested(next), p);
      if p == here.dir {
        assert here.key in EntriesAt(cells[here := Nested(next)], p);
      }
    }
  }

  /** What is left of `leaves` once the walk has reached the dict at `place`. */
  ghost function OffTheWay(leaves: Leaves, place: Place): Leaves {
    map p | p in leaves && !Within(place, p) :: leaves[p]
  }

  lemma OffTheWayStep(leaves: Leaves, here: Place)
    requires here.At?
    ensures OffTheWay(leaves, here) == OffTheWay(leaves, here.dir) - {here}
  {
  }

  lemma StoredOffTheWay(leaves: Leaves, target: Place, value: string)
    requires target.At?
    ensures Detached(OffTheWay(leaves, target.dir), target)[target := value] == PutLeaf(leaves, target, value)
  {
  }

  lemma StoreCoherent(dirs: Dirs, cells: Cells, target: Place, value: string)
    requires Coherent(dirs, cells) && target.At? && target.dir in dirs
    ensures Coherent(Detached(dirs, target), Detached(cells, target)[target := Text(value)])
  {
    WithinIsDeeper(target.dir, target);
    assert !Within(Root, target);
  }

  lemma StoreFilled(dirs: Dirs, cells: Cells, target: Place, value: string)
    requires Coherent(dirs, cells) && target.At? && target.dir in dirs && Filled(dirs, cells, target.dir)
    ensures Filled(Detached(dirs, target), Detached(cells, target)[target := Text(value)], Root)
  {
    hide Coherent;
    forall p | p in dirs && p.At? && !Within(p, target)
      ensures EntriesAt(Detached(cells, target)[target := Text(value)], p) != map[]
    {
      EntriesStored(cells, target, Text(value), p);
      if p == target.dir {
        assert target.key in EntriesAt(Detached(cells, target)[target := Text(value)], p);
      }
    }
  }

  lemma StoreKeeps(dirs: Dirs, cells: Cells, target: Place, value: string)
    requires Coherent(dirs, cells) && target.At? && target.dir in dirs && Filled(dirs, cells, target.dir)
    ensures Coherent(Detached(dirs, target), Detached(cells, target)[target := Text(value)])
    ensures Filled(Detached(dirs, target), Detached(cells, target)[target := Text(value)], Root)
    ensures LeavesOf(Detached(cells, target)[target := Text(value)]) == Detached(LeavesOf(cells), target)[target := value]
  {
    hide Coherent, Filled;
    StoreCoherent(dirs, cells, target, value);
    StoreFilled(dirs, cells, target, value);
    SelfWithin(target);
  }

  lemma SelfWithin(p: Place)
    ensures Within(p, p)
  {
  }

  ghost function Depth(p: Place): nat {
    if p.Root? then 0 else 1 + Depth(p.dir)
  }

  lemma {:induction false} WithinIsDeeper(p: Place, q: Place)
    ensures Within(p, q) ==> Depth(p) >= Depth(q)
  {
    if p.At? {
      WithinIsDeeper(p.dir, q);
    }
  }

  /** The ghost picture of an output: its dicts and their entries, by position. */
  datatype View = View(dirs: Dirs, cells: Cells) {

    ghost predicate Sound(besides: Place) {
      Coherent(dirs, cells) && Filled(dirs, cells, besides)
    }

    ghost function Made(here: Place, next: OutputDict): View {
      View(dirs[here := next], cells[here := Nested(next)])
    }

    ghost function Stored(target: Place, value: string): View {
      View(Detached(dirs, target), Detached(cells, target)[target := Text(value)])
    }
  }

  /** The dicts hold exactly the entries that the view lists. */
  ghost predicate Mirrors(view: View)
    reads view.dirs.Values
  {
    forall p :: p in view.dirs ==> view.dirs[p].entries == EntriesAt(view.cells, p)
  }

  ghost function EmptyView(root: OutputDict): (view: View)
    ensures view.Sound(Root) && EntriesAt(view.cells, Root) == map[]
  {
    View(map[Root := root], map[])
  }

  class Output {
    const root: OutputDict
    ghost var view: View
    ghost var Repr: set<object>

    ghost predicate Valid()
      reads this, Repr
    {
      && this in Repr
      && view.dirs.Values <= Repr
      && Mirrors(view) && view.Sound(Root) && view.dirs[Root] == root
    }

    ghost function Contents(): Leaves
      reads this
    {
      LeavesOf(view.cells)
    }

    constructor ()
      ensures Valid() && Contents() == map[]
      ensures fresh(Repr)
    {
      root := new OutputDict();
      new;
      view := EmptyView(root);
      Repr := {this, root};
    }

    /** `_set_output_value`: walk the dicts along the path, making the missing ones,
        and store the value under the last part. */
    method SetOutputValue(key: string, value: string)
      requires Valid()
      modifies Repr
      ensures Valid() && fresh(Repr - old(Repr))
      ensures Contents() == PutLeaf(old(Contents()), PlaceOf(PathOf(key)), value)
    {
      hide PathOf, LeavesOf, Coherent, Filled;
      var path := PathOf(key);
      if path != [] {
        view := Write(root, path, value, view);
        Repr := Repr + view.dirs.Values;
      }
    }
  }

  method Write(root: OutputDict, path: Path, value: string, ghost view: View) returns (ghost after: View)
    requires path != [] && Mirrors(view) && view.Sound(Root) && view.dirs[Root] == root
    modifies view.dirs.Values
    ensures Mirrors(after) && after.Sound(Root) && after.dirs[Root] == root
    ensures fresh(after.dirs.Values - view.dirs.Values)
    ensures LeavesOf(after.cells) == PutLeaf(LeavesOf(view.cells), PlaceOf(path), value)
  {
    var cursor, v := Walk(root, path, view);
    StoredOffTheWay(LeavesOf(view.cells), PlaceOf(path), value);
    Store(cursor, path[|path| - 1], PlaceOf(path), value, v);
    after := v.Stored(PlaceOf(path), value);
  }

  /** Walk to the dict that is to hold the last part of the path. */
  method Walk(root: OutputDict, path: Path, ghost view: View) returns (cursor: OutputDict, ghost v: View)
    requires path != [] && Mirrors(view) && view.Sound(Root) && view.dirs[Root] == root
    modifies view.dirs.Values
    ensures Mirrors(v) && v.Sound(PlaceOf(path).dir) && v.dirs[Root] == root
    ensures PlaceOf(path).dir in v.dirs && cursor == v.dirs[PlaceOf(path).dir]
    ensures fresh(v.dirs.Values - view.dirs.Values)
    ensures LeavesOf(v.cells) == OffTheWay(LeavesOf(view.cells), PlaceOf(path).dir)
  {
    hide LeavesOf, Coherent, Filled, OffTheWay;
    v := view;
    cursor := root;
    WalkStarts(view);
    assert path[..0] == [];
    for i := 0 to |path| - 1
      invariant Mirrors(v) && v.Sound(PlaceOf(path[..i])) && Root in v.dirs && v.dirs[Root] == root
      invariant PlaceOf(path[..i]) in v.dirs && cursor == v.dirs[PlaceOf(path[..i])]
      invariant fresh(v.dirs.Values - view.dirs.Values)
      invariant LeavesOf(v.cells) == OffTheWay(LeavesOf(view.cells), PlaceOf(path[..i]))
    {
      assert path[..i + 1][..i] == path[..i];
      OffTheWayStep(LeavesOf(view.cells), PlaceOf(path[..i + 1]));
      cursor, v := Enter(cursor, path[i], PlaceOf(path[..i + 1]), v);
      RootIsDir(v);
    }
  }

  lemma RootIsDir(v: View)
    requires Coherent(v.dirs, v.cells)
    ensures Root in v.dirs
  {
  }

  lemma WalkStarts(v: View)
    requires Coherent(v.dirs, v.cells)
    ensures Root in v.dirs && OffTheWay(LeavesOf(v.cells), Root) == LeavesOf(v.cells)
  {
  }

  /** One step of the walk: the dict under `part`, made if no dict is there. */
  method Enter(cursor: OutputDict, part: string, ghost here: Place, ghost v: View)
    returns (next: OutputDict, ghost after: View)
    requires here.At? && Mirrors(v) && v.Sound(here.dir)
    requires here.key == part && here.dir in v.dirs && cursor == v.dirs[here.dir]
    modifies cursor
    ensures Mirrors(after) && after.Sound(here)
    ensures here in after.dirs && after.dirs[here] == next && after.dirs[Root] == v.dirs[Root]
    ensures after.dirs.Values <= v.dirs.Values + {next} && (next in v.dirs.Values || fresh(next))
    ensures LeavesOf(after.cells) == LeavesOf(v.cells) - {here}
  {
    hide Filled, Coherent;
    assert Root in v.dirs by { HasRoot(v.dirs, v.cells); }
    if part in cursor.entries && cursor.entries[part].Nested? {
      next, after := cursor.entries[part].dict, v;
      assert here.key in EntriesAt(v.cells, here.dir);
      EnterExisting(v.dirs, v.cells, here);
    } else {
      assert part in cursor.entries <==> here in v.cells;
      next := Make(cursor, part, here, v);
      after := v.Made(here, next);
      MadeValues(v.dirs, here, next);
      MakeCoherent(v.dirs, v.cells, here, next);
      MakeFills(v.dirs, v.cells, here, next);
    }
  }

  lemma HasRoot(dirs: Dirs, cells: Cells)
    requires Coherent(dirs, cells)
    ensures Root in dirs
  {
  }

  lemma MadeValues(dirs: map<Place, OutputDict>, here: Place, next: OutputDict)
    ensures dirs[here := next].Values <= dirs.Values + {next}
  {
  }

  /** A new empty dictionary is entered under the part. */
  method Make(cursor: OutputDict, part: string, ghost here: Place, ghost v: View) returns (next: OutputDict)
    requires Mirrors(v) && Coherent(v.dirs, v.cells)
    requires here.At? && here.key == part && here.dir in v.dirs && cursor == v.dirs[here.dir]
    requires here in v.cells ==> v.cells[here].Text?
    modifies cursor
    ensures fresh(next) && Mirrors(v.Made(here, next))
  {
    next := new OutputDict();
    cursor.entries := cursor.entries[part := Nested(next)];
    forall p | p in v.Made(here, next).dirs
      ensures v.Made(here, next).dirs[p].entries == EntriesAt(v.Made(here, next).cells, p)
    {
      EntriesEntered(v.cells, here, Nested(next), p);
      MadeEmpty(v.dirs, v.cells, here, next);
      if p != here && p != here.dir {
        assert v.dirs[p] != cursor;
      }
    }
  }

  /** The value is entered under the last part: a dict standing there is dropped with all below it. */
  method Store(cursor: OutputDict, key: string, ghost target: Place, value: string, ghost v: View)
    requires target.At? && Mirrors(v) && v.Sound(target.dir)
    requires target.key == key && target.dir in v.dirs && cursor == v.dirs[target.dir]
    modifies cursor
    ensures Mirrors(v.Stored(target, value)) && v.Stored(target, value).Sound(Root)
    ensures v.Stored(target, value).dirs[Root] == v.dirs[Root]
    ensures v.Stored(target, value).dirs.Values <= v.dirs.Values
    ensures LeavesOf(v.Stored(target, value).cells) == Detached(LeavesOf(v.cells), target)[target := value]
  {
    StoreKeeps(v.dirs, v.cells, target, value);
    cursor.entries := cursor.entries[key := Text(value)];
    forall p | p in v.Stored(target, value).dirs
      ensures v.Stored(target, value).dirs[p].entries == EntriesAt(v.Stored(target, value).cells, p)
    {
      EntriesStored(v.cells, target, Text(value), p);
      if p != target.dir {
        assert v.dirs[p] != cursor;
      }
    }
  }

  /** A reader indexing the dicts key by key finds exactly the value in `Contents`. */
  method ReadBack(output: Output, path: Path) returns (found: Option<string>)
    requires output.Valid()
    ensures found == if PlaceOf(path) in output.Contents() then Some(output.Contents()[PlaceOf(path)]) else None
  {
    if path == [] {
      return None;
    }
    ghost var v := output.view;
    var cursor := output.root;
    assert path[..0] == [];
    for i := 0 to |path| - 1
      invariant PlaceOf(path[..i]) in v.dirs && cursor == v.dirs[PlaceOf(path[..i])]
    {
      assert path[..i + 1][..i] == path[..i];
      if path[i] in cursor.entries && cursor.entries[path[i]].Nested? {
        cursor := cursor.entries[path[i]].dict;
      } else {
        if PlaceOf(path) in v.cells {
          WithinIsPrefix(path[..i + 1], path);
          AncestorIsDir(v, PlaceOf(path), PlaceOf(path[..i + 1]));
        }
        return None;
      }
    }
    var key := path[|path| - 1];
    found := if key in cursor.entries && cursor.entries[key].Text? then Some(cursor.entries[key].value) else None;
  }

  lemma {:induction false} AncestorIsDir(v: View, p: Place, ancestor: Place)
    requires Coherent(v.dirs, v.cells) && p in v.cells && Within(p, ancestor) && p != ancestor
    ensures ancestor in v.dirs
  {
    if p.dir != ancestor {
      AncestorIsDir(v, p.dir, ancestor);
    }
  }

  lemma {:induction false} DepthBound(places: set<Place>) returns (bound: nat)
    ensures forall p :: p in places ==> Depth(p) <= bound
  {
    if places == {} {
      bound := 0;
    } else {
      var q :| q in places;
      bound := DepthBound(places - {q});
      bound := if bound < Depth(q) then Depth(q) else bound;
    }
  }

  /** Below every dict but the root there is a text value. */
  lemma {:induction false} LeafBelow(v: View, p: Place, bound: nat) returns (leaf: Place)
    requires v.Sound(Root) && p in v.dirs && p.At?
    requires forall q :: q in v.cells ==> Depth(q) <= bound
    ensures leaf in LeavesOf(v.cells) && Within(leaf, p) && leaf != p
    decreases bound - Depth(p)
  {
    assert exists k :: k in EntriesAt(v.cells, p);
    var k :| k in EntriesAt(v.cells, p);
    var child := At(p, k);
    if v.cells[child].Text? {
      leaf := child;
    } else {
      leaf := LeafBelow(v, child, bound);
      WithinIsDeeper(leaf, child);
      WithinParent(leaf, child);
    }
  }

  lemma {:induction false} WithinParent(p: Place, q: Place)
    requires q.At? && Within(p, q)
    ensures Within(p, q.dir)
  {
    if p != q {
      WithinParent(p.dir, q);
    }
  }

  /** The text values determine the nested dicts: there are no others. */
  lemma SameValuesSameDicts(a: View, b: View)
    requires a.Sound(Root) && b.Sound(Root)
    requires LeavesOf(a.cells) == LeavesOf(b.cells)
    ensures a.dirs.Keys == b.dirs.Keys && a.cells.Keys == b.cells.Keys
  {
    SameValuesFewerDicts(a, b);
    SameValuesFewerDicts(b, a);
    forall p
      ensures p in a.cells <==> p in b.cells
    {
      if p in a.cells && a.cells[p].Text? { assert p in LeavesOf(b.cells); }
      if p in b.cells && b.cells[p].Text? { assert p in LeavesOf(a.cells); }
    }
  }

  lemma SameValuesFewerDicts(a: View, b: View)
    requires a.Sound(Root) && b.Sound(Root)
    requires LeavesOf(a.cells) == LeavesOf(b.cells)
    ensures a.dirs.Keys <= b.dirs.Keys
  {
    var bound := DepthBound(a.cells.Keys);
    forall p | p in a.dirs && p.At?
      ensures p in b.dirs
    {
      var leaf := LeafBelow(a, p, bound);
      assert leaf in LeavesOf(b.cells);
      AncestorIsDir(b, leaf, p);
    }
  }

  // ---- Sequences of writes

  datatype KeyValue = KeyValue(key: string, value: string) {
    ghost function Path(): Path { PathOf(key) }
    ghost function Place(): Place { PlaceOf(Path()) }
  }

  ghost function WriteAll(leaves: Leaves, writes: seq<KeyValue>): Leaves {
    if writes == [] then leaves
    else
      var last := writes[|writes| - 1];
      PutLeaf(WriteAll(leaves, writes[..|writes| - 1]), last.Place(), last.value)
  }

  /** No two writes go to overlapping places. */
  ghost predicate Apart(writes: seq<KeyValue>) {
    forall i, j :: 0 <= i < j < |writes| && writes[i].Path() != [] && writes[j].Path() != [] ==>
      !Comparable(writes[i].Path(), writes[j].Path())
  }

  ghost function LeafWrites(writes: seq<KeyValue>): nat {
    if writes == [] then 0
    else LeafWrites(writes[..|writes| - 1]) + if writes[|writes| - 1].Path() != [] then 1 else 0
  }

  ghost predicate Reads(leaves: Leaves, place: Place, value: string) {
    place in leaves && leaves[place] == value
  }

  /** Some write puts `value` at `place`. */
  ghost predicate Writes(writes: seq<KeyValue>, place: Place, value: string) {
    exists w :: w in writes && w.Place() == place && w.value == value && place.At?
  }

  /** No lost update: when the places are apart, the output holds exactly the written values,
      each at its own place. */
  lemma {:induction false} WrittenValuesStand(writes: seq<KeyValue>)
    requires Apart(writes)
    ensures forall p, v :: Reads(WriteAll(map[], writes), p, v) <==> Writes(writes, p, v)
    ensures |WriteAll(map[], writes)| == LeafWrites(writes)
  {
    if writes != [] {
      var init, last := writes[..|writes| - 1], writes[|writes| - 1];
      assert writes == init + [last];
      WrittenValuesStand(init);
      var before := WriteAll(map[], init);
      if last.Path() != [] {
        forall p | p in before
          ensures !Within(p, last.Place()) && !Within(last.Place(), p)
        {
          assert Reads(before, p, before[p]);
          EarlierPlaceIsApart(writes, p, before[p]);
        }
        PutApart(before, last.Place(), last.value);
        assert WriteAll(map[], writes) == before[last.Place() := last.value];
      }
      forall p, v
        ensures Writes(writes, p, v) <==> Writes(init, p, v) || (p == last.Place() && v == last.value && p.At?)
      {
      }
    }
  }

  lemma PutApart(leaves: Leaves, place: Place, value: string)
    requires place.At?
    requires forall p :: p in leaves ==> !Within(p, place) && !Within(place, p)
    ensures PutLeaf(leaves, place, value) == leaves[place := value]
    ensures place !in leaves
  {
  }

  lemma EarlierPlaceIsApart(writes: seq<KeyValue>, p: Place, v: string)
    requires writes != [] && Apart(writes) && writes[|writes| - 1].Path() != []
    requires Writes(writes[..|writes| - 1], p, v)
    ensures !Within(p, writes[|writes| - 1].Place()) && !Within(writes[|writes| - 1].Place(), p)
  {
    var last := writes[|writes| - 1];
    var w :| w in writes[..|writes| - 1] && w.Place() == p && w.value == v;
    var i :| 0 <= i < |writes| - 1 && writes[i] == w;
    WithinIsPrefix(w.Path(), last.Path());
    WithinIsPrefix(last.Path(), w.Path());
  }

  /** The output is the same whatever the order of the writes. */
  lemma WriteOrderIrrelevant(writes: seq<KeyValue>, others: seq<KeyValue>)
    requires Apart(writes) && Apart(others)
    requires multiset(writes) == multiset(others)
    ensures WriteAll(map[], writes) == WriteAll(map[], others)
  {
    var a, b := WriteAll(map[], writes), WriteAll(map[], others);
    forall p, v
      ensures Reads(a, p, v) <==> Reads(b, p, v)
    {
      SameReads(writes, others, p, v);
    }
    SameLeaves(a, b);
  }

  lemma SameReads(writes: seq<KeyValue>, others: seq<KeyValue>, p: Place, v: string)
    requires Apart(writes) && Apart(others)
    requires multiset(writes) == multiset(others)
    ensures Reads(WriteAll(map[], writes), p, v) <==> Reads(WriteAll(map[], others), p, v)
  {
    WrittenValuesStand(writes);
    WrittenValuesStand(others);
    SameWrites(writes, others, p, v);
    SameWrites(others, writes, p, v);
  }

  lemma SameWrites(writes: seq<KeyValue>, others: seq<KeyValue>, p: Place, v: string)
    requires multiset(writes) == multiset(others)
    ensures Writes(writes, p, v) ==> Writes(others, p, v)
  {
    if Writes(writes, p, v) {
      var w :| w in writes && w.Place() == p && w.value == v;
      assert w in multiset(others);
    }
  }

  lemma SameLeaves(a: Leaves, b: Leaves)
    requires forall p, v :: Reads(a, p, v) <==> Reads(b, p, v)
    ensures a == b
  {
    forall p
      ensures p in a <==> p in b
      ensures p in a && p in b ==> a[p] == b[p]
    {
      if p in a { assert Reads(a, p, a[p]); }
      if p in b { assert Reads(b, p, b[p]); }
    }
  }
}
