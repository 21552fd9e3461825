/**
  The bounded walk over a configuration tree: directories are read in path order, to a
  limited depth, and the walk stops one file after the limit.
 */
module TreeWalk {
  import opened Wrappers
  import opened Order

  const MAX_ENTRIES := 256
  const MAX_DEPTH := 5

  // A path is its components.
  type Path = seq<string>

  // What `symlink_metadata` and `read_dir` find; entries come in no particular order.
  datatype Node =
    | File
    | Directory(readable: bool, entries: seq<Entry>)
    | SymbolicLink
    | Other
    | NoMetadata

  datatype Entry = Entry(name: string, node: Node)

  // ---------- Path order ----------

  // `Path::cmp`: component by component, a proper prefix first.
  function PathCmp(a: Path, b: Path): Ordering
  {
    if a == [] || b == [] then Compare(|a|, |b|)
    else Then(TextCmp(a[0], b[0]), PathCmp(a[1..], b[1..]))
  }

  // Entries of one directory compare as their paths do.
  function EntryCmp(a: Entry, b: Entry): Ordering
  {
    TextCmp(a.name, b.name)
  }

  lemma EntryCmpIsOrder()
    ensures IsOrder(EntryCmp)
  {
    forall a: Entry, b: Entry, c: Entry
      ensures EntryCmp(b, a) == Flip(EntryCmp(a, b)) && Composes(EntryCmp(a, b), EntryCmp(b, c), EntryCmp(a, c))
    {
      TextOrder(a.name, b.name, c.name);
    }
  }

  lemma SameFirst(first: string, a: Path, b: Path)
    ensures PathCmp([first] + a, [first] + b) == PathCmp(a, b)
  {
    TextEqual(first, first);
    var x, y := [first] + a, [first] + b;
    assert x[0] == first && y[0] == first && x[1..] == a && y[1..] == b;
  }

  lemma {:induction false} SamePrefix(prefix: Path, a: Path, b: Path)
    ensures PathCmp(prefix + a, prefix + b) == PathCmp(a, b)
  {
    if prefix == [] {
      assert prefix + a == a && prefix + b == b;
    } else {
      SameFirst(prefix[0], prefix[1..] + a, prefix[1..] + b);
      SamePrefix(prefix[1..], a, b);
      assert prefix == [prefix[0]] + prefix[1..];
      Associative([prefix[0]], prefix[1..], a);
      Associative([prefix[0]], prefix[1..], b);
    }
  }

  // Sorting the paths of a directory is sorting its entries by name.
  lemma EntriesCompareAsPaths(directory: Path, a: Entry, b: Entry)
    ensures PathCmp(directory + [a.name], directory + [b.name]) == EntryCmp(a, b)
  {
    SamePrefix(directory, [a.name], [b.name]);
    assert [a.name][1..] == [] && [b.name][1..] == [];
  }

  // ---------- The full walk ----------

  // All files below a directory, `room` levels deep, in the order of the walk.
  function Walk(directory: Path, node: Node, room: nat): seq<Path>
    decreases room, 1, 0
  {
    if room == 0 || !node.Directory? || !node.readable then []
    else WalkEntries(directory, SortBy(EntryCmp, node.entries), room)
  }

  function WalkEntries(directory: Path, entries: seq<Entry>, room: nat): seq<Path>
    requires room > 0
    decreases room, 0, |entries|
  {
    if entries == [] then [] else WalkEntry(directory, entries[0], room) + WalkEntries(directory, entries[1..], room)
  }

  function WalkEntry(directory: Path, entry: Entry, room: nat): seq<Path>
    requires room > 0
    decreases room, 0, 0
  {
    match entry.node
    case File => [directory + [entry.name]]
    case Directory(_, _) => Walk(directory + [entry.name], entry.node, room - 1)
    case _ => []
  }

  // A file that the walk should find: readable directories all the way, `room` levels deep.
  ghost predicate Reaches(node: Node, path: Path, room: nat)
    decreases room
  {
    && room > 0 && node.Directory? && node.readable && path != []
    && exists i :: 0 <= i < |node.entries| && EntryReaches(node.entries[i], path, room)
  }

  ghost predicate EntryReaches(entry: Entry, path: Path, room: nat)
    requires room > 0 && path != []
    decreases room, 0
  {
    entry.name == path[0] && (if |path| == 1 then entry.node.File? else Reaches(entry.node, path[1..], room - 1))
  }

  lemma {:induction false} InEntries(directory: Path, entries: seq<Entry>, room: nat, x: Path)
    requires room > 0
    ensures x in WalkEntries(directory, entries, room)
            <==> exists i :: 0 <= i < |entries| && x in WalkEntry(directory, entries[i], room)
  {
    if entries != [] {
      InEntries(directory, entries[1..], room, x);
      assert forall i :: 0 <= i < |entries[1..]| ==> entries[1..][i] == entries[i + 1];
      if i :| 0 <= i < |entries| && x in WalkEntry(directory, entries[i], room) {
        assert i > 0 ==> entries[i] == entries[1..][i - 1];
      }
    }
  }

  // Files found below a directory have its path as a proper prefix.
  lemma StaysBelow(directory: Path, node: Node, room: nat, x: Path)
    requires x in Walk(directory, node, room)
    ensures directory < x
    decreases room, 1
  {
    var sorted := SortBy(EntryCmp, node.entries);
    InEntries(directory, sorted, room, x);
    var i :| 0 <= i < |sorted| && x in WalkEntry(directory, sorted[i], room);
    EntryStaysBelow(directory, sorted[i], room, x);
  }

  lemma EntryStaysBelow(directory: Path, entry: Entry, room: nat, x: Path)
    requires room > 0 && x in WalkEntry(directory, entry, room)
    ensures directory < x
    decreases room, 0
  {
    if entry.node.Directory? {
      StaysBelow(directory + [entry.name], entry.node, room - 1, x);
    }
    ChildIsBelow(directory, entry.name, x);
  }

  lemma ChildIsBelow(directory: Path, name: string, x: Path)
    requires directory + [name] <= x
    ensures directory < x
  {
    assert directory == (directory + [name])[..|directory|] == x[..|directory|];
  }

  /**
    The full walk finds exactly the regular files that can be reached through readable
    directories within the depth, never through a symbolic link.
   */
  lemma WalkFindsTheFiles(directory: Path, node: Node, room: nat, path: Path)
    ensures directory + path in Walk(directory, node, room) <==> Reaches(node, path, room)
    decreases room, 1
  {
    if room > 0 && node.Directory? && node.readable {
      var sorted, x := SortBy(EntryCmp, node.entries), directory + path;
      InEntries(directory, sorted, room, x);
      if i :| 0 <= i < |sorted| && x in WalkEntry(directory, sorted[i], room) {
        SortedIs(EntryCmp, node.entries, i);
        EntryFindsTheFile(directory, sorted[i], room, path);
      }
      if path != [] {
        if i :| 0 <= i < |node.entries| && EntryReaches(node.entries[i], path, room) {
          EntryFindsTheFile(directory, node.entries[i], room, path);
          assert node.entries[i] in multiset(sorted);
        }
      }
    }
  }

  lemma EntryFindsTheFile(directory: Path, entry: Entry, room: nat, path: Path)
    requires room > 0
    ensures directory + path in WalkEntry(directory, entry, room) <==> path != [] && EntryReaches(entry, path, room)
    decreases room, 0
  {
    var x, inner := directory + path, directory + [entry.name];
    assert path != [] ==> path == [path[0]] + path[1..];
    assert path != [] && path[0] == entry.name ==> x == inner + path[1..];
    match entry.node
    case File =>
      assert x == inner ==> path == x[|directory|..] == [entry.name];
    case Directory(_, _) =>
      if inner <= x {
        assert path != [] && path[0] == x[|directory|] == entry.name;
        WalkFindsTheFiles(inner, entry.node, room - 1, path[1..]);
        assert path[1..] == [] ==> !Reaches(entry.node, path[1..], room - 1);
      } else if x in Walk(inner, entry.node, room - 1) {
        StaysBelow(inner, entry.node, room - 1, x);
      }
    case _ =>
  }

  // ---------- The bounded walk ----------

  function Bounded(files: seq<Path>, limit: nat): seq<Path>
  {
    if |files| <= limit then files else files[..limit]
  }

  lemma BoundedTwice(a: seq<Path>, b: seq<Path>, limit: nat)
    ensures Bounded(Bounded(a, limit) + b, limit) == Bounded(a + b, limit)
  {
  }

  // Nothing is added to a full list, and nothing by an empty one.
  lemma BoundedFull(a: seq<Path>, b: seq<Path>, limit: nat)
    requires |a| <= limit && (|a| == limit || b == [])
    ensures Bounded(a + b, limit) == a
  {
  }

  // How many levels are left to walk at a depth.
  function Room(maxDepth: nat, depth: nat): nat
  {
    if depth > maxDepth then 0 else maxDepth + 1 - depth
  }

  class Collector {
    const maxEntries: nat
    const maxDepth: nat
    var files: seq<Path>

    constructor (maxEntries: nat, maxDepth: nat)
      ensures this.maxEntries == maxEntries && this.maxDepth == maxDepth && files == []
    {
      this.maxEntries, this.maxDepth, files := maxEntries, maxDepth, [];
    }

    /**
      `collect_tree_files`: the files found so far, and the full walk after them, up to one
      file more than the limit.
     */
    method Collect(root: Path, directory: Path, node: Node, depth: nat)
      requires root <= directory && |files| <= maxEntries + 1
      modifies this
      ensures files == Bounded(old(files) + Walk(directory, node, Room(maxDepth, depth)), maxEntries + 1)
      decreases Room(maxDepth, depth), 1, 0
    {
      if depth > maxDepth || |files| > maxEntries {
        BoundedFull(files, Walk(directory, node, Room(maxDepth, depth)), maxEntries + 1);
        return;
      }
      if !node.Directory? || !node.readable {
        BoundedFull(files, [], maxEntries + 1);
        return;
      }
      CollectEntries(root, directory, SortBy(EntryCmp, node.entries), depth);
    }

    method CollectEntries(root: Path, directory: Path, entries: seq<Entry>, depth: nat)
      requires root <= directory && |files| <= maxEntries + 1 && depth <= maxDepth
      modifies this
      ensures files == Bounded(old(files) + WalkEntries(directory, entries, Room(maxDepth, depth)), maxEntries + 1)
      decreases Room(maxDepth, depth), 0, 1
    {
      ghost var start, done: seq<Path> := files, [];
      ghost var room := Room(maxDepth, depth);
      var i := 0;
      assert entries[0..] == entries && start + [] == start;
      while i < |entries|
        invariant 0 <= i <= |entries|
        invariant WalkEntries(directory, entries, room) == done + WalkEntries(directory, entries[i..], room)
        invariant files == Bounded(start + done, maxEntries + 1)
      {
        if |files| > maxEntries {
          Overfull(start, done, WalkEntries(directory, entries[i..], room), maxEntries + 1);
          return;
        }
        CollectEntry(root, directory, entries[i], depth);
        Onward(start, done, directory, entries[i..], room, maxEntries + 1);
        assert entries[i..][1..] == entries[i + 1..];
        done := done + WalkEntry(directory, entries[i], room);
        i := i + 1;
      }
      assert done + [] == done;
    }

    method CollectEntry(root: Path, directory: Path, entry: Entry, depth: nat)
      requires root <= directory && |files| <= maxEntries && depth <= maxDepth
      modifies this
      ensures files == Bounded(old(files) + WalkEntry(directory, entry, Room(maxDepth, depth)), maxEntries + 1)
      decreases Room(maxDepth, depth), 0, 0
    {
      var path := directory + [entry.name];
      match entry.node
      case File =>
        if root <= path {
          files := files + [path];
        }
      case Directory(_, _) => Collect(root, path, entry.node, depth + 1);
      case _ => BoundedFull(files, [], maxEntries + 1);
    }
  }

  // One entry further in the walk.
  lemma Onward(start: seq<Path>, done: seq<Path>, directory: Path, entries: seq<Entry>, room: nat, limit: nat)
    requires room > 0 && entries != []
    ensures var found := WalkEntry(directory, entries[0], room);
            && done + WalkEntries(directory, entries, room) == (done + found) + WalkEntries(directory, entries[1..], room)
            && Bounded(Bounded(start + done, limit) + found, limit) == Bounded(start + (done + found), limit)
  {
    var found := WalkEntry(directory, entries[0], room);
    BoundedTwice(start + done, found, limit);
    Associative(start, done, found);
    Associative(done, found, WalkEntries(directory, entries[1..], room));
  }

  lemma Overfull(start: seq<Path>, done: seq<Path>, rest: seq<Path>, limit: nat)
    requires |start + done| >= limit
    ensures Bounded(start + (done + rest), limit) == Bounded(start + done, limit)
  {
    assert start + (done + rest) == (start + done) + rest;
  }

  datatype Inventory = Inventory(files: seq<Path>, truncated: bool)

  /**
    The walk, sort and truncation of `observe_tree`, for any limits.
   */
  method Observe(root: Path, node: Node, maxEntries: nat, maxDepth: nat) returns (r: Inventory)
    requires UniqueNames(node, maxDepth + 1)
    ensures r == Observed(Walk(root, node, maxDepth + 1), maxEntries)
  {
    var collector := new Collector(maxEntries, maxDepth);
    collector.Collect(root, root, node, 0);
    ghost var full := Walk(root, node, maxDepth + 1);
    assert [] + full == full;
    WalkAscends(root, node, maxDepth + 1);
    SortIsIdle(PathCmp, collector.files);
    var files := SortBy(PathCmp, collector.files);
    var truncated := |files| > maxEntries;
    if truncated {
      files := files[..maxEntries];
    }
    r := Inventory(files, truncated);
  }

  method ObserveTree(root: Path, node: Node) returns (r: Inventory)
    requires UniqueNames(node, MAX_DEPTH + 1)
    ensures r == Observed(Walk(root, node, MAX_DEPTH + 1), MAX_ENTRIES)
  {
    r := Observe(root, node, MAX_ENTRIES, MAX_DEPTH);
  }

  // The first files of the full walk, and whether there are more.
  function Observed(full: seq<Path>, limit: nat): Inventory
  {
    Inventory(Bounded(full, limit), |full| > limit)
  }

  // ---------- Order of the walk ----------

  // The names in each directory are distinct, as deep as the walk goes.
  ghost predicate UniqueNames(node: Node, room: nat)
    decreases room
  {
    room > 0 && node.Directory? ==>
      && Distinct(EntryCmp, node.entries)
      && forall i :: 0 <= i < |node.entries| ==> UniqueNames(node.entries[i].node, room - 1)
  }

  // Files below entries of different names compare as the names.
  lemma NamesDecide(directory: Path, a: string, b: string, x: Path, y: Path)
    requires TextCmp(a, b) == Less && directory + [a] <= x && directory + [b] <= y
    ensures PathCmp(x, y) == Less
  {
    var n := |directory|;
    SamePrefix(directory, x[n..], y[n..]);
    assert x == directory + x[n..] && y == directory + y[n..];
    assert x[n] == a && y[n] == b;
  }

  lemma EntryIsBelow(directory: Path, entry: Entry, room: nat)
    requires room > 0 && UniqueNames(entry.node, room - 1)
    ensures forall x :: x in WalkEntry(directory, entry, room) ==> directory + [entry.name] <= x
    ensures Ascending(PathCmp, WalkEntry(directory, entry, room))
    decreases room, 0, 0
  {
    if entry.node.Directory? {
      WalkAscends(directory + [entry.name], entry.node, room - 1);
    }
  }

  lemma {:induction false} EntriesAscend(directory: Path, entries: seq<Entry>, room: nat)
    requires room > 0 && Ascending(EntryCmp, entries)
    requires forall i :: 0 <= i < |entries| ==> UniqueNames(entries[i].node, room - 1)
    ensures Ascending(PathCmp, WalkEntries(directory, entries, room))
    ensures forall x :: x in WalkEntries(directory, entries, room) ==>
              exists i :: 0 <= i < |entries| && directory + [entries[i].name] <= x
    decreases room, 0, |entries|
  {
    if entries != [] {
      var first, rest := WalkEntry(directory, entries[0], room), WalkEntries(directory, entries[1..], room);
      EntryIsBelow(directory, entries[0], room);
      EntriesAscend(directory, entries[1..], room);
      forall x, y | x in first && y in rest
        ensures PathCmp(x, y) == Less
      {
        var i :| 0 <= i < |entries[1..]| && directory + [entries[1..][i].name] <= y;
        NamesDecide(directory, entries[0].name, entries[i + 1].name, x, y);
      }
      AscendingJoin(first, rest);
      forall x | x in first + rest
        ensures exists i :: 0 <= i < |entries| && directory + [entries[i].name] <= x
      {
        if x in rest {
          var i :| 0 <= i < |entries[1..]| && directory + [entries[1..][i].name] <= x;
          assert entries[i + 1] == entries[1..][i];
        }
      }
    }
  }

  lemma AscendingJoin(a: seq<Path>, b: seq<Path>)
    requires Ascending(PathCmp, a) && Ascending(PathCmp, b)
    requires forall x, y :: x in a && y in b ==> PathCmp(x, y) == Less
    ensures Ascending(PathCmp, a + b)
  {
    forall i, j | 0 <= i < j < |a + b|
      ensures PathCmp((a + b)[i], (a + b)[j]) == Less
    {
      if i < |a| <= j {
        assert a[i] in a && b[j - |a|] in b;
      }
    }
  }

  /**
    The walk is in strictly ascending path order, and stays below its directory.
   */
  lemma WalkAscends(directory: Path, node: Node, room: nat)
    requires UniqueNames(node, room)
    ensures Ascending(PathCmp, Walk(directory, node, room))
    ensures forall x :: x in Walk(directory, node, room) ==> directory < x
    decreases room, 1, 0
  {
    if room > 0 && node.Directory? && node.readable {
      var sorted := SortBy(EntryCmp, node.entries);
      EntryCmpIsOrder();
      SortAscends(EntryCmp, node.entries);
      forall i | 0 <= i < |sorted|
        ensures UniqueNames(sorted[i].node, room - 1)
      {
        SortedIs(EntryCmp, node.entries, i);
      }
      EntriesAscend(directory, sorted, room);
    }
  }

  /**
    What is reported: the kept files are the smallest ones, nothing is reported twice or
    invented, and `truncated` says exactly whether a file is missing.
   */
  lemma KeptAreTheSmallest(root: Path, node: Node, maxEntries: nat, room: nat)
    requires UniqueNames(node, room)
    ensures var full, r := Walk(root, node, room), Observed(Walk(root, node, room), maxEntries);
            && Ascending(PathCmp, r.files) && |r.files| <= maxEntries
            && (forall x :: x in r.files ==> x in full)
            && (r.truncated <==> exists x :: x in full && x !in r.files)
            && (forall x, y :: x in r.files && y in full && y !in r.files ==> PathCmp(x, y) == Less)
  {
    var full := Walk(root, node, room);
    var kept := Bounded(full, maxEntries);
    WalkAscends(root, node, room);
    forall x, y | x in kept && y in full && y !in kept
      ensures PathCmp(x, y) == Less
    {
      var i :| 0 <= i < |kept| && kept[i] == x;
      var j :| 0 <= j < |full| && full[j] == y;
      assert full[..|kept|] == kept;
    }
    if |full| > maxEntries {
      var y := full[maxEntries];
      forall i | 0 <= i < |kept|
        ensures kept[i] != y
      {
        assert PathCmp(full[i], full[maxEntries]) == Less;
        SelfEqual(y);
      }
      assert y in full && y !in kept;
    }
  }

  lemma {:induction false} SelfEqual(a: Path)
    ensures PathCmp(a, a) == Equal
  {
    if a != [] {
      TextEqual(a[0], a[0]);
      SelfEqual(a[1..]);
    }
  }
}
