/** Configuration trees: merging an overlay, removing allowlisted paths, and comparing exactly. */
module ConfigTree {
  import opened Basics

  datatype Scalar = Bool(b: bool) | Int(n: int) | Float(x: real) | Text(s: string) | Null

  datatype Tree = Leaf(value: Scalar) | List(items: seq<Tree>) | Node(entries: map<string, Tree>)

  type Path = seq<string>

  // ---------------------------------------------------------------- operations

  /** The overlay wins, except that two mappings at the same place are merged. */
  function DeepMerge(base: Tree, overlay: Tree): Tree
    decreases overlay
  {
    if !base.Node? || !overlay.Node? then overlay
    else
      Node(map key | key in base.entries.Keys + overlay.entries.Keys ::
        if key !in overlay.entries then base.entries[key]
        else if key in base.entries then DeepMerge(base.entries[key], overlay.entries[key])
        else overlay.entries[key])
  }

  /** Recursive comparison of type and value. */
  predicate ExactValue(a: Tree, b: Tree)
    decreases a
  {
    match a
    case Node(entries) =>
      b.Node? && entries.Keys == b.entries.Keys &&
      forall key | key in entries :: ExactValue(entries[key], b.entries[key])
    case List(items) =>
      b.List? && |items| == |b.items| && forall i | 0 <= i < |items| :: ExactValue(items[i], b.items[i])
    case Leaf(value) => b.Leaf? && value == b.value
  }

  /** The tree with the entry at one path deleted; the empty path names none. */
  function Delete(t: Tree, path: Path): Tree
    decreases |path|
  {
    if !t.Node? || path == [] || path[0] !in t.entries then t
    else if |path| == 1 then Node(t.entries - {path[0]})
    else Node(t.entries[path[0] := Delete(t.entries[path[0]], path[1..])])
  }

  /** Deletes every listed path, in turn. */
  function Prune(t: Tree, paths: seq<Path>): Tree {
    if paths == [] then t else Delete(Prune(t, paths[..|paths| - 1]), paths[|paths| - 1])
  }

  method WithoutPaths(t: Tree, paths: seq<Path>) returns (result: Tree)
    ensures result == Prune(t, paths)
  {
    result := t;
    for i := 0 to |paths|
      invariant result == Prune(t, paths[..i])
    {
      assert paths[..i + 1][..i] == paths[..i];
      result := Delete(result, paths[i]);
    }
    assert paths[..|paths|] == paths;
  }

  predicate HasPath(t: Tree, path: Path)
    decreases |path|
  {
    path != [] && t.Node? && path[0] in t.entries && (|path| == 1 || HasPath(t.entries[path[0]], path[1..]))
  }

  // ---------------------------------------------------------------- observing a tree path by path

  /** What a path leads to: nothing, a mapping, or a final value. */
  datatype Sight = Nothing | Mapping | Final(value: Tree)

  function See(t: Tree, path: Path): (s: Sight)
    ensures s.Final? ==> !s.value.Node?
    decreases |path|
  {
    if path == [] then (if t.Node? then Mapping else Final(t))
    else if t.Node? && path[0] in t.entries then See(t.entries[path[0]], path[1..])
    else Nothing
  }

  ghost predicate SameSights(a: Tree, b: Tree) {
    forall path :: See(a, path) == See(b, path)
  }

  lemma {:induction false} ExactIsEqual(a: Tree, b: Tree)
    ensures ExactValue(a, b) <==> a == b
    decreases a
  {
    match a
    case Leaf(_) =>
    case List(items) =>
      if b.List? && |items| == |b.items| {
        forall i | 0 <= i < |items|
          ensures ExactValue(items[i], b.items[i]) <==> items[i] == b.items[i]
        {
          ExactIsEqual(items[i], b.items[i]);
        }
      }
    case Node(entries) =>
      if b.Node? && entries.Keys == b.entries.Keys {
        forall key | key in entries
          ensures ExactValue(entries[key], b.entries[key]) <==> entries[key] == b.entries[key]
        {
          ExactIsEqual(entries[key], b.entries[key]);
        }
      }
  }

  /** Trees that look the same along every path are equal. */
  lemma {:induction false} SightsDetermine(a: Tree, b: Tree)
    requires SameSights(a, b)
    ensures a == b
    decreases a
  {
    assert See(a, []) == See(b, []);
    if a.Node? {
      forall key
        ensures key in a.entries <==> key in b.entries
        ensures key in a.entries && key in b.entries ==> a.entries[key] == b.entries[key]
      {
        assert See(a, [key]) == See(b, [key]);
        assert key in a.entries ==> See(a, [key]) == See(a.entries[key], []) != Nothing;
        assert key in b.entries ==> See(b, [key]) == See(b.entries[key], []) != Nothing;
        if key in a.entries && key in b.entries {
          forall path
            ensures See(a.entries[key], path) == See(b.entries[key], path)
          {
            assert See(a, [key] + path) == See(b, [key] + path);
            assert ([key] + path)[1..] == path;
          }
          SightsDetermine(a.entries[key], b.entries[key]);
        }
      }
      assert a.entries.Keys == b.entries.Keys;
      assert a.entries == b.entries;
    }
  }

  // ---------------------------------------------------------------- merging

  /** A final value of the tree lies strictly above the path. */
  predicate Shadowed(t: Tree, path: Path)
    decreases |path|
  {
    path != [] && (!t.Node? || (path[0] in t.entries && Shadowed(t.entries[path[0]], path[1..])))
  }

  /** What a merge shows along a path: the overlay if it has anything there, else the base unless a value hides it. */
  function MergedSight(base: Tree, overlay: Tree, path: Path): Sight {
    if See(overlay, path) != Nothing then See(overlay, path)
    else if Shadowed(overlay, path) then Nothing
    else See(base, path)
  }

  lemma {:induction false} SeeMerge(base: Tree, overlay: Tree, path: Path)
    ensures See(DeepMerge(base, overlay), path) == MergedSight(base, overlay, path)
    decreases |path|
  {
    if base.Node? && overlay.Node? && path != [] {
      var key := path[0];
      if key in base.entries && key in overlay.entries {
        SeeMerge(base.entries[key], overlay.entries[key], path[1..]);
      }
    }
  }

  /** Merging the same overlay again changes nothing. */
  lemma MergeIsIdempotent(base: Tree, overlay: Tree)
    ensures DeepMerge(DeepMerge(base, overlay), overlay) == DeepMerge(base, overlay)
  {
    var once := DeepMerge(base, overlay);
    forall path
      ensures See(DeepMerge(once, overlay), path) == See(once, path)
    {
      SeeMerge(once, overlay, path);
      SeeMerge(base, overlay, path);
    }
    SightsDetermine(DeepMerge(once, overlay), once);
  }

  // ---------------------------------------------------------------- pruning

  /** Some listed path, not empty, is a prefix of the path. */
  ghost predicate Covered(paths: seq<Path>, path: Path) {
    exists i | 0 <= i < |paths| :: paths[i] != [] && paths[i] <= path
  }

  lemma {:induction false} SeeDelete(t: Tree, deleted: Path, path: Path)
    ensures See(Delete(t, deleted), path) == if deleted != [] && deleted <= path then Nothing else See(t, path)
    decreases |path|
  {
    if t.Node? && deleted != [] && deleted[0] in t.entries && path != [] && path[0] == deleted[0] {
      if |deleted| > 1 {
        SeeDelete(t.entries[path[0]], deleted[1..], path[1..]);
        assert deleted <= path <==> deleted[1..] <= path[1..] by {
          PrefixOfRest(deleted, path);
        }
      }
    }
  }

  lemma PrefixOfRest(p: Path, q: Path)
    requires p != [] && q != [] && p[0] == q[0]
    ensures p <= q <==> p[1..] <= q[1..]
  {
    if p[1..] <= q[1..] {
      assert forall i | 1 <= i < |p| :: p[i] == p[1..][i - 1] == q[1..][i - 1] == q[i];
    }
  }

  /** Pruning leaves exactly what has no listed prefix. */
  lemma {:induction false} SeePrune(t: Tree, paths: seq<Path>, path: Path)
    ensures See(Prune(t, paths), path) == if Covered(paths, path) then Nothing else See(t, path)
  {
    if paths != [] {
      var n := |paths| - 1;
      SeePrune(t, paths[..n], path);
      SeeDelete(Prune(t, paths[..n]), paths[n], path);
      assert forall i | 0 <= i < n :: paths[..n][i] == paths[i];
      assert Covered(paths, path) <==> Covered(paths[..n], path) || (paths[n] != [] && paths[n] <= path);
    }
  }

  /** Neither order, repetition nor nesting of the list matters: only what it covers. */
  lemma PruneDependsOnCover(t: Tree, paths: seq<Path>, other: seq<Path>)
    requires forall path :: Covered(paths, path) <==> Covered(other, path)
    ensures Prune(t, paths) == Prune(t, other)
  {
    forall path
      ensures See(Prune(t, paths), path) == See(Prune(t, other), path)
    {
      SeePrune(t, paths, path);
      SeePrune(t, other, path);
    }
    SightsDetermine(Prune(t, paths), Prune(t, other));
  }

  lemma CoverGrows(paths: seq<Path>, other: seq<Path>, path: Path)
    requires forall p | p in paths :: p in other
    ensures Covered(paths, path) ==> Covered(other, path)
  {
    if Covered(paths, path) {
      var i :| 0 <= i < |paths| && paths[i] != [] && paths[i] <= path;
      assert paths[i] in other;
    }
  }

  lemma PruneIsOrderFree(t: Tree, paths: seq<Path>, other: seq<Path>)
    requires multiset(paths) == multiset(other)
    ensures Prune(t, paths) == Prune(t, other)
  {
    forall path
      ensures Covered(paths, path) <==> Covered(other, path)
    {
      assert forall p :: p in paths <==> p in multiset(paths);
      assert forall p :: p in other <==> p in multiset(other);
      CoverGrows(paths, other, path);
      CoverGrows(other, paths, path);
    }
    PruneDependsOnCover(t, paths, other);
  }

  /** A path below a listed one adds nothing, wherever it stands in the list. */
  lemma NestedPathIsRedundant(t: Tree, before: seq<Path>, nested: Path, after: seq<Path>, i: nat)
    requires i < |before + after| && (before + after)[i] != [] && (before + after)[i] <= nested
    ensures Prune(t, before + [nested] + after) == Prune(t, before + after)
  {
    var longer, shorter := before + [nested] + after, before + after;
    forall path
      ensures Covered(longer, path) <==> Covered(shorter, path)
    {
      assert forall k | 0 <= k < |shorter| ::
          shorter[k] == longer[if k < |before| then k else k + 1];
      if nested <= path {
        assert shorter[i] <= path by {
          PrefixOfPrefix(shorter[i], nested, path);
        }
      }
      if Covered(longer, path) {
        var k :| 0 <= k < |longer| && longer[k] != [] && longer[k] <= path;
        assert k < |before| ==> shorter[k] == longer[k];
        assert k > |before| ==> shorter[k - 1] == longer[k];
      }
    }
    PruneDependsOnCover(t, longer, shorter);
  }

  lemma PrefixOfPrefix(p: Path, q: Path, r: Path)
    requires p <= q && q <= r
    ensures p <= r
  {
    assert forall i | 0 <= i < |p| :: p[i] == q[i] == r[i];
  }

  // ---------------------------------------------------------------- allowlists

  /** The parts of a text between separators. */
  function Split(text: string, separator: char): (parts: seq<string>)
    ensures |parts| >= 1
  {
    if text == "" then [""]
    else
      var parts := Split(text[..|text| - 1], separator);
      var c := text[|text| - 1];
      if c == separator then parts + [""]
      else parts[|parts| - 1 := parts[|parts| - 1] + [c]]
  }

  function Join(parts: seq<string>, separator: char): string
    requires |parts| >= 1
  {
    if |parts| == 1 then parts[0] else Join(parts[..|parts| - 1], separator) + [separator] + parts[|parts| - 1]
  }

  lemma {:induction false} JoinSplit(text: string, separator: char)
    ensures Join(Split(text, separator), separator) == text
  {
    if text != "" {
      var n := |text| - 1;
      var parts, c := Split(text[..n], separator), text[n];
      JoinSplit(text[..n], separator);
      if c == separator {
        assert (parts + [""])[..|parts|] == parts;
        assert text == text[..n] + [separator] + "";
      } else {
        var last := |parts| - 1;
        var more := parts[last := parts[last] + [c]];
        assert more[..last] == parts[..last];
        assert text == text[..n] + [c];
      }
    }
  }

  /** No part holds the separator. */
  predicate Free(parts: seq<string>, separator: char) {
    forall i | 0 <= i < |parts| :: separator !in parts[i]
  }

  lemma {:induction false} SplitIsFree(text: string, separator: char)
    ensures Free(Split(text, separator), separator)
  {
    if text != "" {
      SplitIsFree(text[..|text| - 1], separator);
    }
  }

  lemma {:induction false} SplitAppended(text: string, more: string, separator: char)
    requires separator !in more
    ensures var parts := Split(text, separator);
            Split(text + more, separator) == parts[|parts| - 1 := parts[|parts| - 1] + more]
  {
    var parts := Split(text, separator);
    if more == "" {
      assert text + more == text && parts[|parts| - 1] + more == parts[|parts| - 1];
    } else {
      var n := |more| - 1;
      SplitAppended(text, more[..n], separator);
      assert (text + more)[..|text + more| - 1] == text + more[..n];
      assert parts[|parts| - 1] + more[..n] + [more[n]] == parts[|parts| - 1] + more;
    }
  }

  lemma SplitTail(before: string, part: string, separator: char)
    requires separator !in part
    ensures Split(before + [separator] + part, separator) == Split(before, separator) + [part]
  {
    var parts := Split(before, separator);
    assert (before + [separator])[..|before|] == before;
    SplitAppended(before + [separator], part, separator);
    assert (parts + [""])[|parts|] + part == part;
    assert (parts + [""])[|parts| := part] == parts + [part];
  }

  /** Every list of separator-free parts comes back from the text that joins them. */
  lemma {:induction false} SplitJoin(parts: seq<string>, separator: char)
    requires |parts| >= 1 && Free(parts, separator)
    ensures Split(Join(parts, separator), separator) == parts
  {
    var n := |parts| - 1;
    if n == 0 {
      SplitAppended("", parts[0], separator);
      assert "" + parts[0] == parts[0];
    } else {
      SplitJoin(parts[..n], separator);
      SplitTail(Join(parts[..n], separator), parts[n], separator);
    }
  }

  /** A pointer's keys, in the escape-free subset of section 3 of RFC 6901; other texts name no path. */
  function Parts(pointer: string): Path {
    if |pointer| > 0 && pointer[0] == '/' then Split(pointer[1..], '/') else []
  }

  /** The pointer built from keys. */
  function PointerOf(keys: seq<string>): string
    requires |keys| >= 1
  {
    "/" + Join(keys, '/')
  }

  /** A text names the path of some keys exactly when it is the pointer built from them, and none holds a slash. */
  lemma PartsAreKeys(pointer: string, keys: seq<string>)
    requires |keys| >= 1
    ensures Parts(pointer) == keys <==> Free(keys, '/') && pointer == PointerOf(keys)
  {
    if Parts(pointer) == keys {
      SplitIsFree(pointer[1..], '/');
      JoinSplit(pointer[1..], '/');
      assert pointer == "/" + pointer[1..];
    }
    if Free(keys, '/') && pointer == PointerOf(keys) {
      SplitJoin(keys, '/');
      assert pointer[1..] == Join(keys, '/');
    }
  }

  /** Different pointers name different paths. */
  lemma PointersAreDistinctPaths(p: string, q: string)
    requires |p| > 0 && |q| > 0 && p[0] == q[0] == '/' && Parts(p) == Parts(q)
    ensures p == q
  {
    PartsAreKeys(p, Parts(p));
    PartsAreKeys(q, Parts(p));
  }

  predicate HasDoubleSlash(text: string) {
    exists i | 1 <= i < |text| :: text[i - 1] == '/' && text[i] == '/'
  }

  predicate ValidPointer(pointer: string) {
    && |pointer| > 1 && pointer[0] == '/'
    && !HasDoubleSlash(pointer) && '~' !in pointer && '*' !in pointer
  }

  predicate ValidAllowlist(pointers: seq<string>) {
    && (forall i, j | 0 <= i < j < |pointers| :: pointers[i] != pointers[j])
    && (forall i | 0 <= i < |pointers| :: ValidPointer(pointers[i]))
  }

  function Paths(pointers: seq<string>): (paths: seq<Path>)
    ensures |paths| == |pointers| && forall i | 0 <= i < |paths| :: paths[i] == Parts(pointers[i])
  {
    seq(|pointers|, i requires 0 <= i < |pointers| => Parts(pointers[i]))
  }

  lemma {:induction false} HasPathIsSeen(t: Tree, path: Path)
    ensures HasPath(t, path) <==> path != [] && See(t, path) != Nothing
    decreases |path|
  {
    if path != [] && t.Node? && path[0] in t.entries && |path| > 1 {
      HasPathIsSeen(t.entries[path[0]], path[1..]);
    }
  }

  /** Keys an allowlist may name: not the root alone, none empty but perhaps the last, no escape, wildcard or slash. */
  predicate PlainKeys(keys: seq<string>) {
    && keys != [""] && Free(keys, '/') && Free(keys, '~') && Free(keys, '*')
    && InnerNonEmpty(keys)
  }

  /** No key but perhaps the last is empty. */
  predicate InnerNonEmpty(keys: seq<string>) {
    forall i | 0 <= i < |keys| - 1 :: keys[i] != ""
  }

  lemma InnerOfNext(keys: seq<string>, last: string)
    requires |keys| >= 1
    ensures InnerNonEmpty(keys + [""]) <==> InnerNonEmpty(keys) && keys[|keys| - 1] != ""
    ensures InnerNonEmpty(keys[|keys| - 1 := last]) <==> InnerNonEmpty(keys)
  {
    var n := |keys| - 1;
    assert forall i | 0 <= i <= n :: (keys + [""])[i] == keys[i];
    assert forall i | 0 <= i < n :: keys[n := last][i] == keys[i];
    if InnerNonEmpty(keys + [""]) {
      assert (keys + [""])[n] != "";
    }
  }

  /** A character other than the separator is in a text exactly when it is in some part. */
  lemma {:induction false} SplitKeepsOthers(text: string, separator: char, c: char)
    requires c != separator
    ensures c in text <==> !Free(Split(text, separator), c)
  {
    if text != "" {
      var n := |text| - 1;
      var parts := Split(text[..n], separator);
      SplitKeepsOthers(text[..n], separator, c);
      assert text == text[..n] + [text[n]];
      if text[n] == separator {
        AppendedIsFree(parts, "", c);
      } else {
        GrownIsFree(parts, text[n], c);
      }
    }
  }

  lemma AppendedIsFree(parts: seq<string>, last: string, c: char)
    ensures Free(parts + [last], c) <==> Free(parts, c) && c !in last
  {
    if Free(parts + [last], c) {
      assert forall i | 0 <= i < |parts| :: (parts + [last])[i] == parts[i];
      assert (parts + [last])[|parts|] == last;
    }
  }

  lemma InExtended(text: string, x: char, c: char)
    ensures c in text + [x] <==> c in text || x == c
  {
  }

  lemma GrownIsFree(parts: seq<string>, x: char, c: char)
    requires |parts| >= 1
    ensures Free(parts[|parts| - 1 := parts[|parts| - 1] + [x]], c) <==> Free(parts, c) && x != c
  {
    var grown := parts[|parts| - 1 := parts[|parts| - 1] + [x]];
    var last := |parts| - 1;
    assert forall i | 0 <= i < last :: grown[i] == parts[i];
    assert c in grown[last] <==> c in parts[last] || x == c by {
      InExtended(parts[last], x, c);
    }
    assert Free(grown, c) ==> x != c && forall i | 0 <= i < |parts| :: c !in grown[i];
  }

  /** Two slashes in a row are an empty part before the last one. */
  lemma {:induction false} DoubleSlashIsEmptyKey(text: string)
    ensures !HasDoubleSlash("/" + text) <==> InnerNonEmpty(Split(text, '/'))
    ensures text == "" || text[|text| - 1] == '/' <==> Split(text, '/')[|Split(text, '/')| - 1] == ""
  {
    if text == "" {
      assert !HasDoubleSlash("/" + text);
    } else {
      var n := |text| - 1;
      var before, pointer, parts := "/" + text[..n], "/" + text, Split(text[..n], '/');
      DoubleSlashIsEmptyKey(text[..n]);
      assert forall i | 0 <= i <= n :: pointer[i] == before[i];
      assert HasDoubleSlash(before) ==> HasDoubleSlash(pointer);
      assert HasDoubleSlash(pointer) <==> HasDoubleSlash(before) || (pointer[n] == '/' && pointer[n + 1] == '/');
      assert pointer[n + 1] == text[n] && (pointer[n] == '/' <==> parts[|parts| - 1] == "");
      InnerOfNext(parts, parts[|parts| - 1] + [text[n]]);
    }
  }

  lemma ValidPointerMeansPlainKeys(pointer: string)
    ensures ValidPointer(pointer) <==> Parts(pointer) != [] && PlainKeys(Parts(pointer))
  {
    if |pointer| > 0 && pointer[0] == '/' {
      var text, keys := pointer[1..], Parts(pointer);
      assert pointer == "/" + text;
      SplitIsFree(text, '/');
      SplitKeepsOthers(text, '/', '~');
      SplitKeepsOthers(text, '/', '*');
      DoubleSlashIsEmptyKey(text);
      JoinSplit(text, '/');
      assert text == "" <==> keys == [""];
    }
  }

  function Pointers(keys: seq<Path>): (pointers: seq<string>)
    requires forall i | 0 <= i < |keys| :: keys[i] != []
    ensures |pointers| == |keys| && forall i | 0 <= i < |keys| :: pointers[i] == PointerOf(keys[i])
  {
    seq(|keys|, i requires 0 <= i < |keys| => PointerOf(keys[i]))
  }

  // ---------------------------------------------------------------- provenance

  predicate NonEmptyMapping(t: Tree) {
    t.Node? && t.entries != map[]
  }

  predicate NumberIs(s: Sight, x: real) {
    match s
    case Final(Leaf(Int(n))) => n as real == x
    case Final(Leaf(Float(y))) => y == x
    case _ => false
  }

  /** The values the selected overlay must carry. */
  predicate PhaseB(t: Tree) {
    && See(t, ["common", "online_intrinsics_en"]) == Final(Leaf(Bool(false)))
    && NumberIs(See(t, ["imu", "acc_cov"]), 10.0)
    && NumberIs(See(t, ["vio", "img_point_cov"]), 1000.0)
    && NumberIs(See(t, ["vio", "outlier_threshold"]), 600.0)
    && See(t, ["uav", "imu_rate_odom"]) == Final(Leaf(Bool(false)))
  }

  /** An expected tree has none of the allowlisted paths, and the live one has them all. */
  predicate Ephemeral(expected: Tree, live: Tree, pointers: seq<string>) {
    && ValidAllowlist(pointers)
    && (forall i | 0 <= i < |pointers| :: !HasPath(expected, Parts(pointers[i])))
    && (forall i | 0 <= i < |pointers| :: HasPath(live, Parts(pointers[i])))
  }

  lemma PathsOfPointers(keys: seq<Path>)
    requires forall i | 0 <= i < |keys| :: keys[i] != [] && Free(keys[i], '/')
    ensures Paths(Pointers(keys)) == keys
    ensures forall i, j | 0 <= i < j < |keys| :: Pointers(keys)[i] == Pointers(keys)[j] <==> keys[i] == keys[j]
  {
    var pointers := Pointers(keys);
    forall i | 0 <= i < |keys|
      ensures Parts(pointers[i]) == keys[i]
    {
      PartsAreKeys(pointers[i], keys[i]);
    }
    assert forall i, j | 0 <= i < j < |keys| && pointers[i] == pointers[j] :: Parts(pointers[i]) == Parts(pointers[j]);
  }

  lemma AllowlistOfKeys(keys: seq<Path>)
    requires forall i | 0 <= i < |keys| :: keys[i] != [] && Free(keys[i], '/')
    ensures ValidAllowlist(Pointers(keys)) <==> PlainAllowlist(keys)
  {
    PathsOfPointers(keys);
    forall i | 0 <= i < |keys|
      ensures ValidPointer(Pointers(keys)[i]) <==> PlainKeys(keys[i])
    {
      assert Paths(Pointers(keys))[i] == keys[i];
      ValidPointerMeansPlainKeys(Pointers(keys)[i]);
    }
  }

  /** Different lists of keys that an allowlist may name. */
  predicate PlainAllowlist(keys: seq<Path>) {
    && (forall i, j | 0 <= i < j < |keys| :: keys[i] != keys[j])
    && (forall i | 0 <= i < |keys| :: PlainKeys(keys[i]))
  }

  /** For pointers built from keys, the ephemeral lists speak of exactly those keys. */
  lemma EphemeralByKeys(expected: Tree, live: Tree, keys: seq<Path>)
    requires forall i | 0 <= i < |keys| :: keys[i] != [] && Free(keys[i], '/')
    ensures Ephemeral(expected, live, Pointers(keys)) <==> (
              && PlainAllowlist(keys)
              && (forall i | 0 <= i < |keys| :: See(expected, keys[i]) == Nothing)
              && (forall i | 0 <= i < |keys| :: See(live, keys[i]) != Nothing))
  {
    AllowlistOfKeys(keys);
    PathsOfPointers(keys);
    forall i | 0 <= i < |keys|
      ensures Parts(Pointers(keys)[i]) == keys[i]
      ensures HasPath(expected, keys[i]) <==> See(expected, keys[i]) != Nothing
      ensures HasPath(live, keys[i]) <==> See(live, keys[i]) != Nothing
    {
      assert Paths(Pointers(keys))[i] == keys[i];
      HasPathIsSeen(expected, keys[i]);
      HasPathIsSeen(live, keys[i]);
    }
  }

  datatype Evidence = Evidence(
    base: Tree, overlay: Tree, live: Tree, ephemeral: seq<string>,
    camera: Tree, liveCamera: Tree, cameraEphemeral: seq<string>, exactRequired: bool, cameraNamespace: string)

  /** The canonical hash of a tree; None if it has no canonical form. */
  type Hash = Tree -> Option<string>

  /** The hash gate of the source: a proper hash is expected, and the live tree has it. */
  predicate SameHash(hash: Hash, live: Tree, expected: Tree) {
    hash(expected).Some? && hash(live) == hash(expected)
  }

  const CAMERA_NAMESPACE := "/laserMapping"

  /** The parameter gates: both live trees are the expected ones once the ephemeral paths are removed. */
  ghost predicate ParametersExact(e: Evidence) {
    var expected := DeepMerge(e.base, e.overlay);
    && NonEmptyMapping(e.base) && NonEmptyMapping(e.overlay) && NonEmptyMapping(e.camera)
    && e.live.Node? && e.liveCamera.Node? && e.exactRequired
    && PhaseB(e.overlay) && e.cameraNamespace == CAMERA_NAMESPACE
    && Ephemeral(expected, e.live, e.ephemeral) && Ephemeral(e.camera, e.liveCamera, e.cameraEphemeral)
    && Prune(e.live, Paths(e.ephemeral)) == expected
    && Prune(e.liveCamera, Paths(e.cameraEphemeral)) == e.camera
  }

  /** The hash gates add only that both expected trees have a canonical form. */
  method EvaluateParameters(e: Evidence, hash: Hash) returns (pass: bool)
    ensures pass <==> ParametersExact(e) && hash(DeepMerge(e.base, e.overlay)).Some? && hash(e.camera).Some?
  {
    var listsValid := ValidAllowlist(e.ephemeral) && ValidAllowlist(e.cameraEphemeral);
    var normalized, normalizedCamera := e.live, e.liveCamera;
    if listsValid && e.live.Node? {
      normalized := WithoutPaths(e.live, Paths(e.ephemeral));
    }
    if listsValid && e.liveCamera.Node? {
      normalizedCamera := WithoutPaths(e.liveCamera, Paths(e.cameraEphemeral));
    }
    var available := NonEmptyMapping(e.base) && NonEmptyMapping(e.overlay);
    if !available {
      return false;
    }
    var expected := DeepMerge(e.base, e.overlay);
    var disjoint := listsValid && e.camera.Node? && e.live.Node? && e.liveCamera.Node? &&
      Ephemeral(expected, e.live, e.ephemeral) && Ephemeral(e.camera, e.liveCamera, e.cameraEphemeral);
    ExactIsEqual(normalized, expected);
    ExactIsEqual(normalizedCamera, e.camera);
    pass := PhaseB(e.overlay) && disjoint && e.exactRequired && ExactValue(normalized, expected) &&
      NonEmptyMapping(e.camera) && ExactValue(normalizedCamera, e.camera) && e.cameraNamespace == CAMERA_NAMESPACE &&
      SameHash(hash, normalized, expected) && SameHash(hash, normalizedCamera, e.camera);
  }

  /** Off the listed paths the live tree shows what is expected, and nothing is expected on them. */
  ghost predicate SameOffPaths(expected: Tree, live: Tree, paths: seq<Path>) {
    forall path :: See(expected, path) == if Covered(paths, path) then Nothing else See(live, path)
  }

  /** A pruned live tree is the expected one exactly when they look alike off the list and nothing is expected on it. */
  lemma PrunedIsExpected(expected: Tree, live: Tree, paths: seq<Path>)
    ensures Prune(live, paths) == expected <==> SameOffPaths(expected, live, paths)
  {
    if SameOffPaths(expected, live, paths) {
      forall path
        ensures See(Prune(live, paths), path) == See(expected, path)
      {
        SeePrune(live, paths, path);
      }
      SightsDetermine(Prune(live, paths), expected);
    }
    if Prune(live, paths) == expected {
      forall path
        ensures See(expected, path) == if Covered(paths, path) then Nothing else See(live, path)
      {
        SeePrune(live, paths, path);
      }
    }
  }

  /** The live tree is what is expected plus something under every listed key path, and nothing else. */
  ghost predicate ExpectedPlus(expected: Tree, live: Tree, keys: seq<Path>) {
    && PlainAllowlist(keys) && (forall i | 0 <= i < |keys| :: See(live, keys[i]) != Nothing)
    && SameOffPaths(expected, live, keys)
  }

  lemma NothingExpectedAt(expected: Tree, live: Tree, keys: seq<Path>, i: nat)
    requires SameOffPaths(expected, live, keys) && i < |keys| && keys[i] != []
    ensures See(expected, keys[i]) == Nothing
  {
    assert keys[i] <= keys[i];
    assert Covered(keys, keys[i]);
  }

  /** For an allowlist built from keys: the path gates and the exactness gate in terms of what the trees show. */
  lemma ExactExceptKeys(expected: Tree, live: Tree, keys: seq<Path>)
    requires forall i | 0 <= i < |keys| :: keys[i] != [] && Free(keys[i], '/')
    ensures Ephemeral(expected, live, Pointers(keys)) && Prune(live, Paths(Pointers(keys))) == expected
            <==> ExpectedPlus(expected, live, keys)
  {
    EphemeralByKeys(expected, live, keys);
    PathsOfPointers(keys);
    assert Prune(live, keys) == expected <==> SameOffPaths(expected, live, keys) by {
      PrunedIsExpected(expected, live, keys);
    }
    if SameOffPaths(expected, live, keys) {
      forall i | 0 <= i < |keys|
        ensures See(expected, keys[i]) == Nothing
      {
        NothingExpectedAt(expected, live, keys, i);
      }
    }
  }

  /** What is expected at a path is live there. */
  lemma ExpectedIsLive(expected: Tree, live: Tree, paths: seq<Path>, path: Path)
    requires Prune(live, paths) == expected && See(expected, path) != Nothing
    ensures See(live, path) == See(expected, path)
  {
    SeePrune(live, paths, path);
  }

  lemma OverlayIsLive(e: Evidence, path: Path)
    requires ParametersExact(e) && See(e.overlay, path) != Nothing
    ensures See(e.live, path) == See(e.overlay, path)
  {
    SeeMerge(e.base, e.overlay, path);
    ExpectedIsLive(DeepMerge(e.base, e.overlay), e.live, Paths(e.ephemeral), path);
  }

  /**
   Provenance: off the allowlist the live tree shows the overlay over the base, on it nothing was configured,
   and the selected values hold in the live tree itself.
   */
  lemma LiveTreeIsMergePlusEphemeral(e: Evidence)
    requires ParametersExact(e)
    ensures forall path | !Covered(Paths(e.ephemeral), path) ::
              See(e.live, path) == MergedSight(e.base, e.overlay, path)
    ensures forall path | Covered(Paths(e.ephemeral), path) :: MergedSight(e.base, e.overlay, path) == Nothing
    ensures See(e.live, ["common", "online_intrinsics_en"]) == Final(Leaf(Bool(false)))
    ensures See(e.live, ["uav", "imu_rate_odom"]) == Final(Leaf(Bool(false)))
    ensures NumberIs(See(e.live, ["imu", "acc_cov"]), 10.0) && NumberIs(See(e.live, ["vio", "img_point_cov"]), 1000.0)
    ensures NumberIs(See(e.live, ["vio", "outlier_threshold"]), 600.0)
  {
    var paths, expected := Paths(e.ephemeral), DeepMerge(e.base, e.overlay);
    forall path
      ensures See(expected, path) == MergedSight(e.base, e.overlay, path)
      ensures See(expected, path) == if Covered(paths, path) then Nothing else See(e.live, path)
    {
      SeeMerge(e.base, e.overlay, path);
      SeePrune(e.live, paths, path);
    }
    OverlayIsLive(e, ["common", "online_intrinsics_en"]);
    OverlayIsLive(e, ["imu", "acc_cov"]);
    OverlayIsLive(e, ["vio", "img_point_cov"]);
    OverlayIsLive(e, ["vio", "outlier_threshold"]);
    OverlayIsLive(e, ["uav", "imu_rate_odom"]);
  }
}
