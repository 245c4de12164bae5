/** Dotted output keys, the paths they denote, and the conflicts between them
    (core/ir/template_fingerprint.py). */
module OutputPaths {
  import opened Prelude
  import opened DottedText

  type Path = seq<string>

  function NonEmptyParts(parts: seq<string>): (r: Path)
    ensures forall part :: part in r <==> part in parts && part != ""
  {
    if parts == [] then []
    else if parts[0] == "" then NonEmptyParts(parts[1..])
    else [parts[0]] + NonEmptyParts(parts[1..])
  }

  function PathOf(key: string): (path: Path)
    ensures forall part :: part in path ==> part != "" && '.' !in part
  {
    NonEmptyParts(SplitDots(key))
  }

  /** Every path of non-empty dot-free parts is denoted by its dotted spelling. */
  lemma {:induction false} PathOfJoin(path: Path)
    requires forall part :: part in path ==> part != "" && '.' !in part
    ensures PathOf(JoinDots(path)) == path
  {
    if |path| == 0 {
      assert SplitDots("") == [""];
    } else if |path| == 1 {
      assert path[0] in path;
      SplitDotsOfPart(path[0], "");
      assert NonEmptyParts([path[0]]) == [path[0]] + NonEmptyParts([]);
    } else {
      assert path[0] in path;
      forall part | part in path[1..] ensures part in path {}
      PathOfJoin(path[1..]);
      SplitDotsOfPart(path[0], JoinDots(path[1..]));
      var parts := SplitDots(JoinDots(path));
      assert parts[1..] == SplitDots(JoinDots(path[1..]));
    }
  }

  /** One path is the other or an initial part of it: writing both would destroy one. */
  ghost predicate Comparable(left: Path, right: Path) {
    left <= right || right <= left
  }

  predicate IsProperPrefix(left: Path, right: Path) {
    |left| < |right| && right[..|left|] == left
  }

  datatype KeyEntry = KeyEntry(fieldId: string, key: string)

  datatype ConflictWarning =
    | SharedKey(key: string, leftField: string, rightField: string)
    | OverlappingKeys(leftKey: string, rightKey: string)

  type Conflicts = map<string, seq<ConflictWarning>>

  ghost function PairWarning(left: KeyEntry, right: KeyEntry): ConflictWarning {
    if PathOf(left.key) == PathOf(right.key)
    then SharedKey(left.key, DisplayId(left.fieldId), DisplayId(right.fieldId))
    else OverlappingKeys(left.key, right.key)
  }

  /** Two entries that both name a place in the output, and the places overlap. */
  ghost predicate Clash(left: KeyEntry, right: KeyEntry) {
    && PathOf(left.key) != [] && PathOf(right.key) != []
    && Comparable(PathOf(left.key), PathOf(right.key))
  }

  /** Entries `i < j` clash, and the warning `w` about them is filed under `key`. */
  ghost predicate Files(entries: seq<KeyEntry>, i: int, j: int, key: string, w: ConflictWarning) {
    && 0 <= i < j < |entries|
    && Clash(entries[i], entries[j])
    && w == PairWarning(entries[i], entries[j])
    && (key == entries[i].key || key == entries[j].key)
  }

  ghost predicate FilesUpTo(entries: seq<KeyEntry>, left: int, right: int, conflicts: Conflicts) {
    && (forall k, w :: k in conflicts && w in conflicts[k] ==>
          exists i, j :: (i < left || (i == left && j < right)) && Files(entries, i, j, k, w))
    && (forall i, j, k, w :: (i < left || (i == left && j < right)) && Files(entries, i, j, k, w) ==>
          k in conflicts && w in conflicts[k])
    && (forall k :: k in conflicts ==> conflicts[k] != [])
  }

  function FileWarning(conflicts: Conflicts, key: string, w: ConflictWarning): Conflicts {
    conflicts[key := (if key in conflicts then conflicts[key] else []) + [w]]
  }

  /** `_output_key_conflicts`: a key is reported exactly when its path overlaps the path of
      another entry, with one warning per overlapping pair and no repetitions. */
  method OutputKeyConflicts(entries: seq<KeyEntry>) returns (conflicts: Conflicts)
    ensures forall k, w :: k in conflicts && w in conflicts[k] ==> exists i, j :: Files(entries, i, j, k, w)
    ensures forall i, j, k, w :: Files(entries, i, j, k, w) ==> k in conflicts && w in conflicts[k]
    ensures forall k :: k in conflicts ==> conflicts[k] != [] && Distinct(conflicts[k])
  {
    var raw: Conflicts := map[];
    var left := 0;
    while left < |entries|
      invariant 0 <= left <= |entries|
      invariant FilesUpTo(entries, left, 0, raw)
    {
      var leftPath := PathOf(entries[left].key);
      if leftPath != [] {
        var right := left + 1;
        while right < |entries|
          invariant left < right <= |entries|
          invariant FilesUpTo(entries, left, right, raw)
        {
          var rightPath := PathOf(entries[right].key);
          if rightPath != []
            && (leftPath == rightPath || IsProperPrefix(leftPath, rightPath) || IsProperPrefix(rightPath, leftPath))
          {
            raw := FileClash(entries, left, right, raw);
          }
          right := right + 1;
        }
      }
      left := left + 1;
    }
    conflicts := map k | k in raw :: Dedupe(raw[k]);
  }

  /** `conflicts.setdefault(key, []).append(warning)` for both keys of a clashing pair. */
  method FileClash(entries: seq<KeyEntry>, left: nat, right: nat, before: Conflicts) returns (after: Conflicts)
    requires left < right < |entries|
    requires Clash(entries[left], entries[right])
    requires FilesUpTo(entries, left, right, before)
    ensures FilesUpTo(entries, left, right + 1, after)
  {
    var w :=
      if PathOf(entries[left].key) == PathOf(entries[right].key) then
        SharedKey(entries[left].key, DisplayId(entries[left].fieldId), DisplayId(entries[right].fieldId))
      else OverlappingKeys(entries[left].key, entries[right].key);
    var once := FileWarning(before, entries[left].key, w);
    after := FileWarning(once, entries[right].key, w);
    forall k, x | k in after && x in after[k]
      ensures exists i, j :: (i < left || (i == left && j < right + 1)) && Files(entries, i, j, k, x)
    {
      if k in before && x in before[k] {
        var i, j :| (i < left || (i == left && j < right)) && Files(entries, i, j, k, x);
      } else {
        assert Files(entries, left, right, k, x);
      }
    }
  }

  /** A field whose key is not reported writes to a place no other entry overlaps. */
  lemma UnreportedKeyIsApart(entries: seq<KeyEntry>, conflicts: Conflicts, i: nat, j: nat)
    requires forall i, j, k, w :: Files(entries, i, j, k, w) ==> k in conflicts && w in conflicts[k]
    requires i < |entries| && j < |entries| && i != j
    requires entries[i].key !in conflicts
    requires PathOf(entries[i].key) != [] && PathOf(entries[j].key) != []
    ensures !Comparable(PathOf(entries[i].key), PathOf(entries[j].key))
  {
    if Comparable(PathOf(entries[i].key), PathOf(entries[j].key)) {
      var a, b := if i < j then i else j, if i < j then j else i;
      assert Files(entries, a, b, entries[i].key, PairWarning(entries[a], entries[b]));
    }
  }
}
