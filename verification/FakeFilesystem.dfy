/**
The in-memory filesystem: directories as name tables on the heap, regular files that may be linked
more than once, and a current directory. Every operation keeps the directories a tree, and says which
locations it changes.
*/
module FakeFilesystem {
  import opened PathText
  import opened PathMeaning
  import opened Paths
  import opened Locations

  datatype Error =
    | InvalidPath
    | DoesNotExist
    | AlreadyExists
    | ParentDoesNotExist
    | CouldNotCreateFile
    | CouldNotCreateDirectory
    | CouldNotRemove
    | CouldNotCreateHardLink
    | CouldNotSetCurrentPath

  datatype Result<+T> = Ok(value: T) | Err(error: Error)

  /** An entry: a regular file, or a directory with its table of names. */
  class Entry {
    const isDirectory: bool
    var entries: map<string, Entry>

    constructor (isDirectory: bool)
      ensures this.isDirectory == isDirectory && entries == map[]
    {
      this.isDirectory := isDirectory;
      entries := map[];
    }

    /** Directory::Find. */
    method Find(name: string) returns (r: Result<Entry>)
      ensures r == if name in entries then Ok(entries[name]) else Err(DoesNotExist)
    {
      if name !in entries {
        return Err(DoesNotExist);
      }
      r := Ok(entries[name]);
    }

    /** Directory::Create. */
    method Create(name: string, isDirectory: bool) returns (r: Result<Entry>)
      modifies this`entries
      ensures name in old(entries) ==> r == Err(AlreadyExists) && entries == old(entries)
      ensures name !in old(entries) ==>
                && r.Ok? && fresh(r.value) && r.value.isDirectory == isDirectory && r.value.entries == map[]
                && entries == old(entries)[name := r.value]
    {
      if name in entries {
        return Err(AlreadyExists);
      }
      var entry := new Entry(isDirectory);
      entries := entries[name := entry];
      r := Ok(entry);
    }

    /** Directory::AddHardLink. */
    method AddHardLink(name: string, entry: Entry) returns (r: Result<()>)
      modifies this`entries
      ensures name in old(entries) ==> r == Err(AlreadyExists) && entries == old(entries)
      ensures name !in old(entries) ==> r == Ok(()) && entries == old(entries)[name := entry]
    {
      if name in entries {
        return Err(AlreadyExists);
      }
      entries := entries[name := entry];
      r := Ok(());
    }

    /** Directory::Erase. */
    method Erase(name: string) returns (r: Result<()>)
      modifies this`entries
      ensures name !in old(entries) ==> r == Err(DoesNotExist) && entries == old(entries)
      ensures name in old(entries) ==> r == Ok(()) && entries == old(entries) - {name}
    {
      if name !in entries {
        return Err(DoesNotExist);
      }
      entries := entries - {name};
      r := Ok(());
    }
  }

  /** The locations of a view that are not at or below `at`. */
  ghost function Without(view: map<seq<string>, Entry>, at: seq<string>): map<seq<string>, Entry> {
    map q | q in view && !(at <= q) :: view[q]
  }

  /** A location is in the table of the directory above it. */
  ghost predicate HangsBelow(view: map<seq<string>, Entry>, tables: map<seq<string>, map<string, Entry>>,
      q: seq<string>)
    requires tables.Keys == view.Keys && q in view
  {
    && Parent(q) in view && view[Parent(q)].isDirectory
    && Name(q) in tables[Parent(q)] && tables[Parent(q)][Name(q)] == view[q]
  }

  ghost predicate AllHang(view: map<seq<string>, Entry>, tables: map<seq<string>, map<string, Entry>>)
    requires tables.Keys == view.Keys
  {
    forall q {:trigger Parent(q)} {:trigger HangsBelow(view, tables, q)} ::
      q in view && q != [] ==> HangsBelow(view, tables, q)
  }

  /** What is in the table of a directory is a location below it. */
  ghost predicate AllListed(view: map<seq<string>, Entry>, tables: map<seq<string>, map<string, Entry>>)
    requires tables.Keys == view.Keys
  {
    forall q, n {:trigger q + [n]} :: q in view && view[q].isDirectory && n in tables[q] ==>
      q + [n] in view && view[q + [n]] == tables[q][n]
  }

  /** The view is what walking the tables from the root reaches. */
  ghost predicate Reaches(root: Entry, view: map<seq<string>, Entry>, tables: map<seq<string>, map<string, Entry>>) {
    && tables.Keys == view.Keys
    && [] in view && view[[]] == root && root.isDirectory
    && AllHang(view, tables) && AllListed(view, tables)
  }

  /** ... and the directories form a tree: each has one location only, while files may be linked at several. */
  ghost predicate Shaped(root: Entry, view: map<seq<string>, Entry>, tables: map<seq<string>, map<string, Entry>>) {
    Reaches(root, view, tables) && OnePlaceEach(view)
  }

  ghost predicate OnePlaceEach(view: map<seq<string>, Entry>) {
    forall p, q :: p in view && q in view && view[p].isDirectory && view[p] == view[q] ==> p == q
  }

  /** One step down: a name below an existing location exists exactly if the table of a directory has it. */
  lemma StepDown(root: Entry, view: map<seq<string>, Entry>, tables: map<seq<string>, map<string, Entry>>,
                 q: seq<string>, n: string)
    requires Reaches(root, view, tables) && q in view
    ensures q + [n] in view <==> view[q].isDirectory && n in tables[q]
    ensures q + [n] in view ==> view[q + [n]] == tables[q][n]
  {
    assert Parent(q + [n]) == q && Name(q + [n]) == n;
  }

  /** If a prefix of a location does not exist, neither does the location. */
  lemma {:induction false} NotBelow(root: Entry, view: map<seq<string>, Entry>,
                                    tables: map<seq<string>, map<string, Entry>>, at: seq<string>, i: nat)
    requires Reaches(root, view, tables) && i <= |at| && at[..i] !in view
    ensures at !in view
    decreases |at| - i
  {
    if i < |at| {
      assert Parent(at[..i + 1]) == at[..i];
      NotBelow(root, view, tables, at, i + 1);
    } else {
      assert at[..i] == at;
    }
  }

  /** The tables after a directory got a new name. */
  ghost predicate Gains(view: map<seq<string>, Entry>, tables: map<seq<string>, map<string, Entry>>,
                        at: seq<string>, name: string, e: Entry, tables': map<seq<string>, map<string, Entry>>)
    requires tables.Keys == view.Keys
  {
    && HasDirectory(view, at) && at + [name] !in view
    && tables'.Keys == view.Keys + {at + [name]}
    && (forall q :: q in view && q != at && view[q].isDirectory ==> tables'[q] == tables[q])
    && tables'[at] == tables[at][name := e]
    && (e.isDirectory ==> e !in view.Values && tables'[at + [name]] == map[])
  }

  lemma LinkedUp(root: Entry, view: map<seq<string>, Entry>, tables: map<seq<string>, map<string, Entry>>,
                 at: seq<string>, name: string, e: Entry, tables': map<seq<string>, map<string, Entry>>, q: seq<string>)
    requires Shaped(root, view, tables) && Gains(view, tables, at, name, e, tables')
    requires q in view[at + [name] := e] && q != []
    ensures HangsBelow(view[at + [name] := e], tables', q)
  {
    if q == at + [name] {
      assert Parent(q) == at && Name(q) == name;
    } else {
      assert q == Parent(q) + [Name(q)];
      assert Parent(q) in view;
    }
  }

  lemma LinkedDown(root: Entry, view: map<seq<string>, Entry>, tables: map<seq<string>, map<string, Entry>>,
                   at: seq<string>, name: string, e: Entry, tables': map<seq<string>, map<string, Entry>>,
                   q: seq<string>, n: string)
    requires Shaped(root, view, tables) && Gains(view, tables, at, name, e, tables')
    requires q in view[at + [name] := e] && view[at + [name] := e][q].isDirectory && n in tables'[q]
    ensures var view' := view[at + [name] := e]; q + [n] in view' && view'[q + [n]] == tables'[q][n]
  {
    assert q in view;
    if q != at {
      assert tables'[q] == tables[q];
    } else if n != name {
      assert n in tables[at];
    }
  }

  lemma LinkedHang(root: Entry, view: map<seq<string>, Entry>, tables: map<seq<string>, map<string, Entry>>,
                   at: seq<string>, name: string, e: Entry, tables': map<seq<string>, map<string, Entry>>)
    requires Shaped(root, view, tables) && Gains(view, tables, at, name, e, tables')
    ensures AllHang(view[at + [name] := e], tables')
  {
    var view' := view[at + [name] := e];
    forall q | q in view' && q != [] ensures HangsBelow(view', tables', q) {
      LinkedUp(root, view, tables, at, name, e, tables', q);
    }
  }

  lemma LinkedListed(root: Entry, view: map<seq<string>, Entry>, tables: map<seq<string>, map<string, Entry>>,
                     at: seq<string>, name: string, e: Entry, tables': map<seq<string>, map<string, Entry>>)
    requires Shaped(root, view, tables) && Gains(view, tables, at, name, e, tables')
    ensures AllListed(view[at + [name] := e], tables')
  {
    var view' := view[at + [name] := e];
    forall q, n {:trigger q + [n]} | q in view' && view'[q].isDirectory && n in tables'[q]
      ensures q + [n] in view' && view'[q + [n]] == tables'[q][n]
    {
      LinkedDown(root, view, tables, at, name, e, tables', q, n);
    }
  }

  /** Giving a directory a name it did not have: one location is added, and the tree stays a tree. */
  lemma Linked(root: Entry, view: map<seq<string>, Entry>, tables: map<seq<string>, map<string, Entry>>,
               at: seq<string>, name: string, e: Entry, tables': map<seq<string>, map<string, Entry>>)
    requires Shaped(root, view, tables) && Gains(view, tables, at, name, e, tables')
    ensures Shaped(root, view[at + [name] := e], tables')
  {
    LinkedHang(root, view, tables, at, name, e, tables');
    LinkedListed(root, view, tables, at, name, e, tables');
    LinkedOnce(view, at + [name], e);
  }

  lemma LinkedOnce(view: map<seq<string>, Entry>, slot: seq<string>, e: Entry)
    requires OnePlaceEach(view) && slot !in view && (e.isDirectory ==> e !in view.Values)
    ensures OnePlaceEach(view[slot := e])
  {
  }

  /** The tables after a directory lost a name. */
  ghost predicate Loses(view: map<seq<string>, Entry>, tables: map<seq<string>, map<string, Entry>>,
                        at: seq<string>, name: string, tables': map<seq<string>, map<string, Entry>>)
    requires tables.Keys == view.Keys
  {
    && HasDirectory(view, at) && at + [name] in view
    && tables'.Keys == Without(view, at + [name]).Keys
    && (forall q :: q in tables' && q != at && view[q].isDirectory ==> tables'[q] == tables[q])
    && tables'[at] == tables[at] - {name}
  }

  lemma UnlinkedUp(root: Entry, view: map<seq<string>, Entry>, tables: map<seq<string>, map<string, Entry>>,
                   at: seq<string>, name: string, tables': map<seq<string>, map<string, Entry>>, q: seq<string>)
    requires Shaped(root, view, tables) && Loses(view, tables, at, name, tables')
    requires q in Without(view, at + [name]) && q != []
    ensures HangsBelow(Without(view, at + [name]), tables', q)
  {
    assert q == Parent(q) + [Name(q)];
    assert Parent(q) in view;
  }

  lemma UnlinkedDown(root: Entry, view: map<seq<string>, Entry>, tables: map<seq<string>, map<string, Entry>>,
                     at: seq<string>, name: string, tables': map<seq<string>, map<string, Entry>>,
                     q: seq<string>, n: string)
    requires Shaped(root, view, tables) && Loses(view, tables, at, name, tables')
    requires q in Without(view, at + [name]) && view[q].isDirectory && n in tables'[q]
    ensures var view' := Without(view, at + [name]); q + [n] in view' && view'[q + [n]] == tables'[q][n]
  {
    assert Parent(q + [n]) == q && Parent(at + [name]) == at && Name(q + [n]) == n && Name(at + [name]) == name;
    assert at + [name] <= q + [n] ==> at + [name] <= q || at + [name] == q + [n];
  }

  lemma UnlinkedHang(root: Entry, view: map<seq<string>, Entry>, tables: map<seq<string>, map<string, Entry>>,
                     at: seq<string>, name: string, tables': map<seq<string>, map<string, Entry>>)
    requires Shaped(root, view, tables) && Loses(view, tables, at, name, tables')
    ensures AllHang(Without(view, at + [name]), tables')
  {
    var view' := Without(view, at + [name]);
    forall q | q in view' && q != [] ensures HangsBelow(view', tables', q) {
      UnlinkedUp(root, view, tables, at, name, tables', q);
    }
  }

  lemma UnlinkedListed(root: Entry, view: map<seq<string>, Entry>, tables: map<seq<string>, map<string, Entry>>,
                       at: seq<string>, name: string, tables': map<seq<string>, map<string, Entry>>)
    requires Shaped(root, view, tables) && Loses(view, tables, at, name, tables')
    ensures AllListed(Without(view, at + [name]), tables')
  {
    var view' := Without(view, at + [name]);
    forall q, n {:trigger q + [n]} | q in view' && view'[q].isDirectory && n in tables'[q]
      ensures q + [n] in view' && view'[q + [n]] == tables'[q][n]
    {
      UnlinkedDown(root, view, tables, at, name, tables', q, n);
    }
  }

  /** Taking a name from a directory: what is at or below it goes, and the tree stays a tree. */
  lemma Unlinked(root: Entry, view: map<seq<string>, Entry>, tables: map<seq<string>, map<string, Entry>>,
                 at: seq<string>, name: string, tables': map<seq<string>, map<string, Entry>>)
    requires Shaped(root, view, tables) && Loses(view, tables, at, name, tables')
    ensures Shaped(root, Without(view, at + [name]), tables')
  {
    UnlinkedHang(root, view, tables, at, name, tables');
    UnlinkedListed(root, view, tables, at, name, tables');
  }

  ghost predicate HasDirectory(view: map<seq<string>, Entry>, at: seq<string>) {
    at in view && view[at].isDirectory
  }

  /** A location that does not exist, in a directory that does. */
  ghost predicate CanHold(view: map<seq<string>, Entry>, at: seq<string>) {
    at != [] && at !in view && HasDirectory(view, Parent(at))
  }

  lemma SlotUp(root: Entry, view: map<seq<string>, Entry>, tables: map<seq<string>, map<string, Entry>>,
      slot: seq<string>)
    requires Reaches(root, view, tables) && slot != []
    ensures slot == Parent(slot) + [Name(slot)]
    ensures slot in view ==> HasDirectory(view, Parent(slot))
  {
  }

  /** Nothing is below a file or an empty directory, and something is below every other entry. */
  lemma LeafAlone(root: Entry, view: map<seq<string>, Entry>, tables: map<seq<string>, map<string, Entry>>,
      at: seq<string>)
    requires Reaches(root, view, tables) && at in view
    ensures !view[at].isDirectory || tables[at] == map[] <==> forall q :: q in view && at <= q ==> q == at
  {
    if !view[at].isDirectory || tables[at] == map[] {
      forall q | q in view && at <= q ensures q == at {
        if |q| > |at| {
          var step := q[..|at| + 1];
          assert Parent(step) == at;
          if step !in view { NotBelow(root, view, tables, q, |at| + 1); }
        }
      }
    } else {
      var n :| n in tables[at];
      assert at + [n] in view && at <= at + [n];
    }
  }

  /** What FakeCreateDirectories walks: the location, and for a directory spelling one more, empty name. */
  function Made(cwd: string, path: string): seq<string> {
    Where(cwd, path) + if MarksDirectory(path) && Where(cwd, path) != [] then [""] else []
  }

  /** A proper prefix of the steps is a file. */
  ghost predicate Blocked(view: map<seq<string>, Entry>, steps: seq<string>) {
    exists q :: q in view && q < steps && !view[q].isDirectory
  }

  /** What was there stays, and exactly the missing prefixes of the steps are added, as directories. */
  ghost predicate Extends(was: map<seq<string>, Entry>, view: map<seq<string>, Entry>, steps: seq<string>) {
    && (forall q :: q in view <==> q in was || q <= steps)
    && (forall q :: q in was ==> q in view && view[q] == was[q])
    && (forall q :: q in view && q !in was ==> view[q].isDirectory)
  }

  lemma ExtendsStep(was: map<seq<string>, Entry>, before: map<seq<string>, Entry>, view: map<seq<string>, Entry>,
                    steps: seq<string>, n: string)
    requires Extends(was, before, steps)
    requires steps + [n] in before ==> view == before
    requires steps + [n] !in before ==> steps + [n] in view && view[steps + [n]].isDirectory
    requires steps + [n] !in before ==> view == before[steps + [n] := view[steps + [n]]]
    ensures Extends(was, view, steps + [n])
  {
    assert (steps + [n])[..|steps|] == steps;
    forall q ensures q in view <==> q in was || q <= steps + [n] {
      assert q <= steps + [n] <==> q <= steps || q == steps + [n];
    }
  }

  lemma BlockedStep(view: map<seq<string>, Entry>, steps: seq<string>, n: string)
    requires !Blocked(view, steps) && (steps in view ==> view[steps].isDirectory)
    ensures !Blocked(view, steps + [n])
  {
    forall q | q in view && q < steps + [n] ensures view[q].isDirectory {
      assert q < steps || q == steps;
    }
  }

  /** When the walk meets a file, nothing was missing before it. */
  lemma NothingMade(root: Entry, was: map<seq<string>, Entry>, tables: map<seq<string>, map<string, Entry>>,
                    view: map<seq<string>, Entry>, at: seq<string>)
    requires Reaches(root, was, tables) && Extends(was, view, at)
    requires at in view && !view[at].isDirectory
    ensures at in was && view == was
  {
    forall q | q <= at ensures q in was {
      if q !in was {
        assert q == at[..|q|];
        NotBelow(root, was, tables, at, |q|);
      }
    }
  }

  lemma TakeNext(steps: seq<string>, i: nat)
    requires i < |steps|
    ensures steps[..i + 1] == steps[..i] + [steps[i]]
  {
  }

  lemma NothingYet(root: Entry, was: map<seq<string>, Entry>, tables: map<seq<string>, map<string, Entry>>)
    requires Reaches(root, was, tables)
    ensures Extends(was, was, []) && !Blocked(was, [])
  {
  }

  lemma FileStops(root: Entry, was: map<seq<string>, Entry>, tables: map<seq<string>, map<string, Entry>>,
                  view: map<seq<string>, Entry>, steps: seq<string>, i: nat)
    requires Reaches(root, was, tables) && i < |steps| && Extends(was, view, steps[..i])
    requires steps[..i] in view && !view[steps[..i]].isDirectory
    ensures view == was && Blocked(was, steps)
  {
    NothingMade(root, was, tables, view, steps[..i]);
    assert steps[..i] < steps;
  }

  // ----- what the operations mean together -----

  lemma {:induction false} SeenInBoth(
      root: Entry, view: map<seq<string>, Entry>, tables: map<seq<string>, map<string, Entry>>,
      view': map<seq<string>, Entry>, tables': map<seq<string>, map<string, Entry>>, q: seq<string>)
    requires Reaches(root, view, tables) && Reaches(root, view', tables') && SameTables(view, tables, view', tables')
    requires q in view
    ensures q in view' && view'[q] == view[q]
    decreases |q|
  {
    if q != [] {
      SeenInBoth(root, view, tables, view', tables', Parent(q));
      assert q == Parent(q) + [Name(q)];
    }
  }

  ghost predicate SameTables(view: map<seq<string>, Entry>, tables: map<seq<string>, map<string, Entry>>,
                             view': map<seq<string>, Entry>, tables': map<seq<string>, map<string, Entry>>)
    requires tables.Keys == view.Keys && tables'.Keys == view'.Keys
  {
    forall p, q :: p in view && q in view' && view[p] == view'[q] ==> tables[p] == tables'[q]
  }

  /** The root and the tables leave only one view: the operations' statements about the view are about the tables. */
  lemma ViewDetermined(root: Entry, view: map<seq<string>, Entry>, tables: map<seq<string>, map<string, Entry>>,
                       view': map<seq<string>, Entry>, tables': map<seq<string>, map<string, Entry>>)
    requires Reaches(root, view, tables) && Reaches(root, view', tables') && SameTables(view, tables, view', tables')
    ensures view == view'
  {
    forall q | q in view ensures q in view' && view'[q] == view[q] {
      SeenInBoth(root, view, tables, view', tables', q);
    }
    forall q | q in view' ensures q in view {
      SeenInBoth(root, view', tables', view, tables, q);
    }
  }

  /** Removing what was just created gives the view back. */
  lemma RemoveUndoesCreate(root: Entry, view: map<seq<string>, Entry>, tables: map<seq<string>, map<string, Entry>>,
                           at: seq<string>, e: Entry)
    requires Reaches(root, view, tables) && at !in view
    ensures Without(view[at := e], at) == view
  {
    forall q | q in view ensures !(at <= q) {
      if at <= q {
        assert q[..|at|] == at;
        NotBelow(root, view, tables, q, |at|);
      }
    }
  }

  /** Making directories adds the location and its missing parents exactly if the path is not spelled as a directory. */
  lemma MadeExactly(cwd: string, path: string, was: map<seq<string>, Entry>, view: map<seq<string>, Entry>)
    requires Extends(was, view, Made(cwd, path))
    ensures Extends(was, view, Where(cwd, path)) <==>
            !MarksDirectory(path) || Where(cwd, path) == [] || Where(cwd, path) + [""] in was
  {
    var at := Where(cwd, path);
    if MarksDirectory(path) && at != [] {
      assert (at + [""])[..|at|] == at;
      assert at + [""] in view && !(at + [""] <= at);
      forall q | q in view && q !in was ensures q <= at || q == at + [""] {
        assert q <= at + [""];
      }
    } else {
      assert Made(cwd, path) == at;
    }
  }

  /** The location exists afterwards, and is a directory exactly if there was no file before. */
  lemma MadeIsDirectory(cwd: string, path: string, was: map<seq<string>, Entry>, view: map<seq<string>, Entry>)
    requires Extends(was, view, Made(cwd, path))
    ensures Where(cwd, path) in view
    ensures HasDirectory(view, Where(cwd, path)) <==>
            Where(cwd, path) !in was || was[Where(cwd, path)].isDirectory
  {
    var at := Where(cwd, path);
    assert Made(cwd, path)[..|at|] == at;
  }

  /** "/n" and "/n/" denote the same location; the latter is spelled as a directory. */
  lemma OneName(n: string)
    requires IsName(n)
    ensures Where(ROOT, [SEP] + n) == [n] && !MarksDirectory([SEP] + n)
    ensures Where(ROOT, [SEP] + n + [SEP]) == [n] && MarksDirectory([SEP] + n + [SEP])
  {
    var p := [SEP] + n;
    assert p == "" + [SEP] + n && p + [SEP] == p + [SEP] + "";
    ComponentsSplit("", n);
    ComponentsSplit(p, "");
    ComponentAlone(n);
    assert Components(p) == [n] && Components(p + [SEP]) == [n];
    assert Walk([], [n][..0]) == [];
    assert p[|p| - 1] == n[|n| - 1];
  }

  /** Where "/f" is a file, making the directories "/f" succeeds, and "/f" is still no directory. */
  lemma FileIsTaken(root: Entry, file: Entry, view: map<seq<string>, Entry>)
    requires root.isDirectory && !file.isDirectory
    ensures var was := map[[] := root, ["f"] := file];
            && Shaped(root, was, map[[] := map["f" := file], ["f"] := map[]])
            && !Blocked(was, Made(ROOT, "/f"))
            && (Extends(was, view, Made(ROOT, "/f")) ==> !HasDirectory(view, Where(ROOT, "/f")))
  {
    var was := map[[] := root, ["f"] := file];
    assert "/f" == [SEP] + "f";
    OneName("f");
    assert Made(ROOT, "/f") == ["f"];
    OneEntry(root, "f", file);
    assert forall q :: q in was && q < ["f"] ==> q == [];
  }

  /** A root with one entry that has none is a filesystem. */
  lemma OneEntry(root: Entry, n: string, e: Entry)
    requires root.isDirectory && e != root
    ensures Shaped(root, map[[] := root, [n] := e], map[[] := map[n := e], [n] := map[]])
  {
    assert Parent([n]) == [] && Name([n]) == n && [] + [n] == [n];
  }

  /** Making "/a/" in an empty filesystem leaves an entry with an empty name in "/a", which "/a" alone would not. */
  lemma EmptyNameMade(root: Entry, view: map<seq<string>, Entry>, tables: map<seq<string>, map<string, Entry>>)
    requires root.isDirectory && Reaches(root, view, tables)
    requires Extends(map[[] := root], view, Made(ROOT, "/a/"))
    ensures ["a"] in view && "" in tables[["a"]]
    ensures !Extends(map[[] := root], view, Where(ROOT, "/a/"))
  {
    assert "/a/" == [SEP] + "a" + [SEP];
    OneName("a");
    assert Made(ROOT, "/a/") == ["a", ""];
    MadeExactly(ROOT, "/a/", map[[] := root], view);
    var at := ["a", ""];
    assert Parent(at) == ["a"] && Name(at) == "";
    assert at in view && ["a"] <= at;
  }

  /** Creating, removing and linking address the location itself exactly if the path is not spelled as a directory. */
  lemma SlotIsLocation(cwd: string, path: string)
    ensures Slot(cwd, path) == Where(cwd, path) <==> !MarksDirectory(path)
  {
    assert |Slot(cwd, path)| == |Where(cwd, path)| + if MarksDirectory(path) then 1 else 0;
  }

  /** What FakeRemove needs of the view to drop a slot: it is there, and nothing is below it. */
  ghost predicate Removable(view: map<seq<string>, Entry>, slot: seq<string>) {
    slot in view && forall q :: q in view && slot <= q ==> q == slot
  }

  /** A location that could be removed is removed through a path exactly if the path is not spelled as a directory. */
  lemma RemovedAsSpelled(cwd: string, path: string, view: map<seq<string>, Entry>)
    requires Removable(view, Where(cwd, path))
    ensures Removable(view, Slot(cwd, path)) <==> !MarksDirectory(path)
  {
    SlotIsLocation(cwd, path);
    assert Where(cwd, path) <= Slot(cwd, path);
  }

  /** An empty directory "/a" is not removed as "/a/": it exists, nothing is below it, and the slot is another. */
  lemma DirectorySpellingMisses(root: Entry, dir: Entry)
    requires root.isDirectory && dir.isDirectory && root != dir
    ensures var view := map[[] := root, ["a"] := dir];
            && Shaped(root, view, map[[] := map["a" := dir], ["a"] := map[]])
            && Removable(view, Where(ROOT, "/a/"))
            && Slot(ROOT, "/a/") !in view
  {
    assert "/a/" == [SEP] + "a" + [SEP];
    OneName("a");
    assert Slot(ROOT, "/a/") == ["a", ""];
    OneEntry(root, "a", dir);
  }

  class Filesystem {
    var root: Entry
    var cwd: string

    /** Every location that exists, with its entry. */
    ghost var view: map<seq<string>, Entry>

    /** The tables of the directories, by location. */
    ghost function Tables(): map<seq<string>, map<string, Entry>>
      reads this`view, view.Values
    {
      map q | q in view :: view[q].entries
    }

    ghost predicate Valid()
      reads this, view.Values
    {
      Shaped(root, view, Tables()) && Rooted(cwd)
    }

    constructor ()
      ensures Valid() && cwd == ROOT && fresh(root) && view == map[[] := root] && root.entries == map[]
    {
      var entry := new Entry(true);
      root := entry;
      cwd := ROOT;
      view := map[[] := entry];
    }

    /** FakeWeaklyCanonical. */
    method WeaklyCanonical(path: string) returns (r: string)
      ensures r == Canonical(cwd, path)
    {
      if path == "" {
        return path;
      }
      var p := new Path(path);
      if !Rooted(path) {
        var full := new Path(cwd);
        full.Append(p);
        r := full.LexicallyNormal();
      } else {
        r := p.LexicallyNormal();
      }
    }

    /** FindEntry: the entry at the location the path denotes; how the path is spelled does not matter. */
    method FindEntry(path: string) returns (r: Result<Entry>)
      requires Valid()
      ensures path == "" ==> r == Err(InvalidPath)
      ensures path != "" ==>
                r == if Where(cwd, path) in view then Ok(view[Where(cwd, path)]) else Err(DoesNotExist)
    {
      if path == "" {
        return Err(InvalidPath);
      }
      var canonical := WeaklyCanonical(path);
      CanonicalSteps(cwd, path);
      CanonicalShape(cwd, path);
      var p := new Path(canonical);
      var steps := if p.parts == [] then [] else p.parts[1..];
      r := Descend(steps, Where(cwd, path));
    }

    /** The loop of FindEntry: from the root, name by name, up to the end or to an empty name. */
    method Descend(steps: seq<string>, ghost at: seq<string>) returns (r: Result<Entry>)
      requires Valid() && AllNames(at) && (steps == at || steps == at + [""])
      ensures r == if at in view then Ok(view[at]) else Err(DoesNotExist)
    {
      var current := root;
      var i := 0;
      while i < |steps| && steps[i] != ""
        invariant 0 <= i <= |at|
        invariant at[..i] in view && view[at[..i]] == current
      {
        assert at[..i + 1] == at[..i] + [steps[i]];
        StepDown(root, view, Tables(), at[..i], steps[i]);
        if !current.isDirectory {
          NotBelow(root, view, Tables(), at, i + 1);
          return Err(DoesNotExist);
        }
        var next := current.Find(steps[i]);
        if next.Err? {
          NotBelow(root, view, Tables(), at, i + 1);
          return Err(DoesNotExist);
        }
        current := next.value;
        i := i + 1;
      }
      assert forall k :: 0 <= k < |at| ==> IsName(at[k]);
      assert at[..|at|] == at;
      r := Ok(current);
    }

    // ----- operations -----

    /** The tables as they are, after the directory at a location got a new name. */
    lemma TableGrown(was: map<seq<string>, Entry>, tables: map<seq<string>, map<string, Entry>>,
                     at: seq<string>, name: string, e: Entry)
      requires Shaped(root, was, tables) && Rooted(cwd) && HasDirectory(was, at) && at + [name] !in was
      requires view == was[at + [name] := e] && was[at].entries == tables[at][name := e]
      requires forall q :: q in was && was[q] != was[at] ==> was[q].entries == tables[q]
      requires e.isDirectory ==> e !in was.Values && e.entries == map[]
      ensures Valid()
    {
      Linked(root, was, tables, at, name, e, Tables());
    }

    /** A new entry in the table of the directory at a location. */
    method AddNew(ghost at: seq<string>, dir: Entry, name: string, isDirectory: bool) returns (r: Result<Entry>)
      requires Valid() && HasDirectory(view, at) && view[at] == dir
      modifies this`view, dir`entries
      ensures Valid()
      ensures r.Ok? <==> at + [name] !in old(view)
      ensures r.Err? ==> view == old(view) && dir.entries == old(dir.entries)
      ensures r.Ok? ==> view == old(view)[at + [name] := r.value]
      ensures r.Ok? ==> fresh(r.value) && r.value.isDirectory == isDirectory && r.value.entries == map[]
    {
      ghost var was, tables := view, Tables();
      StepDown(root, was, tables, at, name);
      r := dir.Create(name, isDirectory);
      if r.Ok? {
        view := view[at + [name] := r.value];
        TableGrown(was, tables, at, name, r.value);
      }
    }

    /** The filename and the parent directory that creating, removing and linking look up first. */
    method FindSlot(path: string) returns (filename: string, dir: Result<Entry>)
      requires Valid()
      ensures path == "" ==> filename == "" && dir.Err?
      ensures path != "" ==> filename == Name(Slot(cwd, path)) && (filename == "" <==> MarksDirectory(path))
      ensures path != "" ==>
                var up := Parent(Slot(cwd, path)); dir == if up in view then Ok(view[up]) else Err(DoesNotExist)
    {
      var canonical := WeaklyCanonical(path);
      if path == "" {
        return "", Err(InvalidPath);
      }
      CanonicalSplit(cwd, path);
      var parent;
      filename, parent := SplitPath(canonical);
      dir := FindEntry(parent);
    }

    static method SplitPath(path: string) returns (filename: string, parent: string)
      requires ParentDefined(path)
      ensures filename == FilenameOf(path) && parent == ParentOf(path)
    {
      var p := new Path(path);
      filename := p.Filename();
      parent := p.ParentPath();
    }

    /** CreateEntry: a new file or directory at the location of the path, and nothing else. */
    method CreateEntry(path: string, isDirectory: bool) returns (r: Result<Entry>)
      requires Valid()
      modifies this`view, view.Values
      ensures Valid()
      ensures r.Err? ==> view == old(view)
      ensures r.Ok? <==> path != "" && !MarksDirectory(path) && CanHold(old(view), Where(cwd, path))
      ensures path != "" && !MarksDirectory(path) && HasDirectory(old(view), Parent(Where(cwd, path))) ==>
                Where(cwd, path) != [] && Where(cwd, path) !in old(view) ==> r.Ok?
      ensures r.Ok? ==> view == old(view)[Where(cwd, path) := r.value]
      ensures r.Ok? ==> fresh(r.value) && r.value.isDirectory == isDirectory && r.value.entries == map[]
      ensures r.Err? ==>
                r.error == if path == "" || MarksDirectory(path) then
                             if isDirectory then CouldNotCreateDirectory else CouldNotCreateFile
                           else if !HasDirectory(old(view), Parent(Where(cwd, path))) then ParentDoesNotExist
                           else CouldNotCreateFile
    {
      var filename, dir := FindSlot(path);
      if filename == "" {
        return Err(if isDirectory then CouldNotCreateDirectory else CouldNotCreateFile);
      }
      SlotUnmarked(cwd, path);
      if dir.Err? || !dir.value.isDirectory {
        return Err(ParentDoesNotExist);
      }
      r := AddNew(Parent(Slot(cwd, path)), dir.value, filename, isDirectory);
      if r.Err? {
        return Err(CouldNotCreateFile);
      }
    }

    /** FakeCreateDirectory. */
    method CreateDirectory(path: string) returns (r: Result<()>)
      requires Valid()
      modifies this`view, view.Values
      ensures Valid()
      ensures r.Ok? <==> path != "" && (HasDirectory(old(view), Where(cwd, path))
                                        || (!MarksDirectory(path) && CanHold(old(view), Where(cwd, path))))
      ensures r.Err? ==> r.error == CouldNotCreateDirectory && view == old(view)
      ensures r.Ok? ==> HasDirectory(view, Where(cwd, path))
      ensures r.Ok? ==> view == old(view)[Where(cwd, path) := view[Where(cwd, path)]]
    {
      var entry := FindEntry(path);
      if entry.Ok? {
        if entry.value.isDirectory {
          assert view == view[Where(cwd, path) := view[Where(cwd, path)]];
          return Ok(());
        }
        return Err(CouldNotCreateDirectory);
      }
      var made := CreateEntry(path, true);
      if made.Err? {
        return Err(CouldNotCreateDirectory);
      }
      r := Ok(());
    }

    /** One more name for a file, in the table of the directory at a location. */
    method AddLink(ghost at: seq<string>, dir: Entry, name: string, file: Entry) returns (r: Result<()>)
      requires Valid() && HasDirectory(view, at) && view[at] == dir && !file.isDirectory
      modifies this`view, dir`entries
      ensures Valid()
      ensures r.Ok? <==> at + [name] !in old(view)
      ensures view == if r.Ok? then old(view)[at + [name] := file] else old(view)
    {
      ghost var was, tables := view, Tables();
      StepDown(root, was, tables, at, name);
      r := dir.AddHardLink(name, file);
      if r.Ok? {
        view := view[at + [name] := file];
        TableGrown(was, tables, at, name, file);
      }
    }

    /** FakeCreateHardLink: the new path names the same file. */
    method CreateHardLink(oldPath: string, newPath: string) returns (r: Result<()>)
      requires Valid()
      modifies this`view, view.Values
      ensures Valid()
      ensures r.Ok? <==>
          && oldPath != "" && Where(cwd, oldPath) in old(view) && !old(view)[Where(cwd, oldPath)].isDirectory
          && newPath != "" && !MarksDirectory(newPath) && CanHold(old(view), Where(cwd, newPath))
      ensures r.Err? ==> view == old(view) && r.error in {CouldNotCreateHardLink, CouldNotCreateFile}
      ensures r == Err(CouldNotCreateFile) ==> Where(cwd, newPath) in old(view)
      ensures r.Ok? ==> view == old(view)[Where(cwd, newPath) := old(view)[Where(cwd, oldPath)]]
    {
      var file := FindEntry(oldPath);
      if file.Err? || file.value.isDirectory {
        return Err(CouldNotCreateHardLink);
      }
      var filename, dir := FindSlot(newPath);
      if filename == "" {
        return Err(CouldNotCreateHardLink);
      }
      SlotUnmarked(cwd, newPath);
      if dir.Err? || !dir.value.isDirectory {
        return Err(CouldNotCreateHardLink);
      }
      r := AddLink(Parent(Slot(cwd, newPath)), dir.value, filename, file.value);
      if r.Err? {
        return Err(CouldNotCreateFile);
      }
    }

    /** Dropping a name from the table of the directory at a location, with all that is below it. */
    method Detach(ghost at: seq<string>, dir: Entry, name: string) returns (r: Result<()>)
      requires Valid() && HasDirectory(view, at) && view[at] == dir
      modifies this`view, dir`entries
      ensures Valid()
      ensures r == if at + [name] in old(view) then Ok(()) else Err(DoesNotExist)
      ensures view == if r.Ok? then Without(old(view), at + [name]) else old(view)
    {
      ghost var was, tables := view, Tables();
      StepDown(root, was, tables, at, name);
      r := dir.Erase(name);
      if r.Ok? {
        view := Without(view, at + [name]);
        Unlinked(root, was, tables, at, name, Tables());
      }
    }

    /** FakeRemoveAll: the slot of the path and everything below it goes, all else stays. */
    method RemoveAll(path: string) returns (r: Result<()>)
      requires Valid()
      modifies this`view, view.Values
      ensures Valid()
      ensures r.Ok? <==> path != "" && Slot(cwd, path) in old(view)
      ensures r.Err? ==>
                r.error == if path != "" && HasDirectory(old(view), Parent(Slot(cwd, path))) then DoesNotExist
                    else CouldNotRemove
      ensures view == if r.Ok? then Without(old(view), Slot(cwd, path)) else old(view)
    {
      var filename, dir := FindSlot(path);
      if path != "" { SlotUp(root, view, Tables(), Slot(cwd, path)); }
      if dir.Err? || !dir.value.isDirectory {
        return Err(CouldNotRemove);
      }
      r := Detach(Parent(Slot(cwd, path)), dir.value, filename);
    }

    /** FakeRemove: only a file or an empty directory goes, and nothing else. */
    method Remove(path: string) returns (r: Result<()>)
      requires Valid()
      modifies this`view, view.Values
      ensures Valid()
      ensures r.Ok? <==> path != "" && Removable(old(view), Slot(cwd, path))
      ensures path != "" && Removable(old(view), Where(cwd, path)) ==> (r.Ok? <==> !MarksDirectory(path))
      ensures r.Err? ==> r.error == CouldNotRemove
      ensures view == if r.Ok? then old(view) - {Slot(cwd, path)} else old(view)
    {
      if Removable(view, Where(cwd, path)) { RemovedAsSpelled(cwd, path, view); }
      var filename, dir := FindSlot(path);
      if path != "" { SlotUp(root, view, Tables(), Slot(cwd, path)); }
      if dir.Err? || !dir.value.isDirectory {
        return Err(CouldNotRemove);
      }
      r := DetachLeaf(Slot(cwd, path), dir.value, filename);
    }

    /** The end of FakeRemove: drop the name if its entry is a file or an empty directory. */
    method DetachLeaf(ghost slot: seq<string>, dir: Entry, name: string) returns (r: Result<()>)
      requires Valid() && slot == Parent(slot) + [name] && HasDirectory(view, Parent(slot)) && view[Parent(slot)] == dir
      modifies this`view, dir`entries
      ensures Valid()
      ensures r.Ok? <==> Removable(old(view), slot)
      ensures r.Err? ==> r.error == CouldNotRemove
      ensures view == if r.Ok? then old(view) - {slot} else old(view)
    {
      StepDown(root, view, Tables(), Parent(slot), name);
      var entry := dir.Find(name);
      if entry.Err? {
        return Err(CouldNotRemove);
      }
      LeafAlone(root, view, Tables(), slot);
      if !entry.value.isDirectory || entry.value.entries == map[] {
        r := Detach(Parent(slot), dir, name);
        return;
      }
      r := Err(CouldNotRemove);
    }

    /** FakeSetCurrentPath: relative paths are read from the new location. */
    method SetCurrentPath(path: string) returns (r: Result<()>)
      requires Valid()
      modifies this`cwd
      ensures Valid()
      ensures r.Ok? <==> path != "" && Where(old(cwd), path) in view
      ensures r.Err? ==> r.error == CouldNotSetCurrentPath && cwd == old(cwd)
      ensures r.Ok? ==> cwd == Canonical(old(cwd), path)
      ensures r.Ok? ==> forall q :: Where(cwd, q) == Resolve(Where(old(cwd), path), q)
    {
      var entry := FindEntry(path);
      if entry.Ok? {
        CanonicalShape(cwd, path);
        cwd := WeaklyCanonical(path);
        return Ok(());
      }
      r := Err(CouldNotSetCurrentPath);
    }

    /** ResetRootDirectory: an empty root; the current path is kept, and may no longer exist. */
    method ResetRootDirectory()
      requires Valid()
      modifies this`root, this`view
      ensures Valid() && fresh(root) && view == map[[] := root]
    {
      var entry := new Entry(true);
      root := entry;
      view := map[[] := entry];
    }

    /**
    FakeCreateDirectories: every missing prefix of the steps becomes a directory, unless a file is in the
    way; then nothing is made. A file at the last step is not noticed.
    */
    method CreateDirectories(path: string) returns (r: Result<()>)
      requires Valid() && path != ""
      modifies this`view, view.Values
      ensures Valid()
      ensures r.Ok? <==> !Blocked(old(view), Made(cwd, path))
      ensures r.Err? ==> view == old(view) && r.error == CouldNotCreateDirectory
      ensures r.Ok? ==> Extends(old(view), view, Made(cwd, path))
      ensures r.Ok? ==> (HasDirectory(view, Where(cwd, path)) <==>
                         Where(cwd, path) !in old(view) || old(view)[Where(cwd, path)].isDirectory)
      ensures forall q :: q in view && q !in old(view) ==> fresh(view[q])
    {
      var canonical := WeaklyCanonical(path);
      CanonicalSteps(cwd, path);
      var p := new Path(canonical);
      var steps := if p.parts == [] then [] else p.parts[1..];
      r := MakeAll(steps);
      if r.Ok? { MadeIsDirectory(cwd, path, old(view), view); }
    }

    /** The walk has come to a location, has made what was missing above it, and has met no file before it. */
    ghost predicate Along(was: map<seq<string>, Entry>, made: set<Entry>, at: seq<string>, e: Entry)
      reads this, view.Values
    {
      && Valid() && at in view && view[at] == e && Extends(was, view, at) && !Blocked(was, at)
      && (at in was ==> was[at] == e) && (at !in was ==> e in made)
      && forall q :: q in view && q !in was ==> view[q] in made
    }

    lemma OldOrMade(was: map<seq<string>, Entry>, made: set<Entry>, at: seq<string>, e: Entry)
      requires Along(was, made, at, e)
      ensures e in was.Values || e in made
    {
    }

    lemma Begins(steps: seq<string>)
      requires Valid()
      ensures Along(view, {}, steps[..0], root) && root in view.Values
    {
      NothingYet(root, view, Tables());
    }

    /** One step of FakeCreateDirectories: the entry of that name, made if it is missing. */
    method FindOrMake(ghost was: map<seq<string>, Entry>, ghost made0: set<Entry>, ghost at: seq<string>,
                      dir: Entry, name: string)
      returns (e: Entry, ghost made: set<Entry>)
      requires Along(was, made0, at, dir) && dir.isDirectory
      modifies this`view, dir`entries
      ensures Along(was, made, at + [name], e) && made0 <= made && fresh(made - made0)
    {
      StepDown(root, view, Tables(), at, name);
      made := made0;
      var entry := dir.Find(name);
      if entry.Err? {
        entry := AddNew(at, dir, name, true);
        made := made + {entry.value};
      }
      e := entry.value;
      ExtendsStep(was, old(view), view, at, name);
      BlockedStep(was, at, name);
    }

    method Advance(ghost was: map<seq<string>, Entry>, ghost made0: set<Entry>, steps: seq<string>, i: nat, dir: Entry)
      returns (e: Entry, ghost made: set<Entry>)
      requires i < |steps| && Along(was, made0, steps[..i], dir) && dir.isDirectory
      modifies this`view, dir`entries
      ensures Along(was, made, steps[..i + 1], e) && (e in was.Values || e in made) && fresh(made - made0)
    {
      TakeNext(steps, i);
      e, made := FindOrMake(was, made0, steps[..i], dir, steps[i]);
      OldOrMade(was, made, steps[..i + 1], e);
    }

    /** The loop of FakeCreateDirectories, up to the end or to a file before it. */
    method WalkAndMake(steps: seq<string>) returns (i: nat, current: Entry, ghost made: set<Entry>)
      requires Valid()
      modifies this`view, view.Values
      ensures i <= |steps| && fresh(made) && Along(old(view), made, steps[..i], current)
      ensures i < |steps| ==> !current.isDirectory
    {
      made := {};
      current := root;
      i := 0;
      Begins(steps);
      ghost var was := view;
      while i < |steps| && current.isDirectory
        invariant i <= |steps| && Along(was, made, steps[..i], current)
        invariant fresh(made) && (current in was.Values || current in made)
      {
        current, made := Advance(was, made, steps, i, current);
        i := i + 1;
      }
    }

    /** FakeCreateDirectories, on the steps of the path. */
    method MakeAll(steps: seq<string>) returns (r: Result<()>)
      requires Valid()
      modifies this`view, view.Values
      ensures Valid()
      ensures r.Ok? <==> !Blocked(old(view), steps)
      ensures r.Err? ==> view == old(view) && r.error == CouldNotCreateDirectory
      ensures r.Ok? ==> Extends(old(view), view, steps)
      ensures forall q :: q in view && q !in old(view) ==> fresh(view[q])
    {
      ghost var was, tables := view, Tables();
      var i, current, made := WalkAndMake(steps);
      if i < |steps| {
        FileStops(root, was, tables, view, steps, i);
        return Err(CouldNotCreateDirectory);
      }
      assert steps[..|steps|] == steps;
      r := Ok(());
    }
  }
}
