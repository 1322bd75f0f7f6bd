/**
 * The bookkeeping of the LCIO analyzer: the dataset a file belongs to
 * (derived from its path relative to the base directory), the grouping of
 * the discovered files into datasets, and the number of events read for one
 * dataset under the optional cap on events.
 */
module SlcioAnalysis {
  import opened Text

  // ---------------------------------------------------------------------
  // _extract_dataset_name
  // ---------------------------------------------------------------------

  /**
   * `_extract_dataset_name`: the path is split at `/`; with more than one
   * part the dataset is the parent directory's name, otherwise the file name
   * without its extension.
   */
  function ExtractDatasetName(relPath: string): (name: string)
    ensures '/' !in name
  {
    var parts := Split(relPath, '/');
    if |parts| > 1 then parts[|parts| - 2]
    else
      SplitNoSepPart(relPath);
      var stem := SplitExt(parts[0]).0;
      assert forall c :: c in stem ==> c in parts[0] by {
        assert stem + SplitExt(parts[0]).1 == parts[0];
        forall c | c in stem ensures c in parts[0] {
          var k :| 0 <= k < |stem| && stem[k] == c;
          assert parts[0][k] == c;
        }
      }
      stem
  }

  /** A path that splits into one part is that part. */
  lemma SplitNoSepPart(s: string)
    ensures |Split(s, '/')| == 1 ==> Split(s, '/')[0] == s
  {
    JoinSplit(s, '/');
  }

  /** A file in a directory belongs to the dataset named after that directory, however deep the directory lies. */
  lemma NestedFileDataset(parent: string, dir: string, file: string)
    requires parent == [] || parent[|parent| - 1] == '/'
    requires '/' !in dir && '/' !in file
    ensures ExtractDatasetName(parent + dir + "/" + file) == dir
  {
    var rest := dir + "/" + file;
    TwoParts(dir, file);
    assert parent + dir + "/" + file == parent + rest;
    PartsEndWith(parent, rest, Split(parent + rest, '/'));
  }

  lemma TwoParts(dir: string, file: string)
    requires '/' !in dir && '/' !in file
    ensures Split(dir + "/" + file, '/') == [dir, file]
  {
    SplitAround(dir, '/', file);
    SplitNoSep(dir, '/');
    SplitNoSep(file, '/');
  }

  /** A directory prefix only adds parts in front. */
  lemma PartsEndWith(parent: string, rest: string, parts: seq<string>)
    requires parent == [] || parent[|parent| - 1] == '/'
    requires |Split(rest, '/')| == 2 && parts == Split(parent + rest, '/')
    ensures |parts| >= 2 && parts[|parts| - 2] == Split(rest, '/')[0]
  {
    if parent == [] {
      assert parent + rest == rest;
    } else {
      var a := parent[..|parent| - 1];
      assert parent == a + "/";
      SplitAround(a, '/', rest);
    }
  }

  /** A file directly in the base directory is its own dataset, named by the file name without its extension. */
  lemma TopFileDataset(stem: string, ext: string)
    requires NotAllDots(stem) && '/' !in stem
    requires ext != [] && ext[0] == '.' && '.' !in ext[1..] && '/' !in ext
    ensures ExtractDatasetName(stem + ext) == stem
  {
    var p := stem + ext;
    assert '/' !in p by {
      forall k | 0 <= k < |p| ensures p[k] != '/' {
        if k < |stem| { assert p[k] == stem[k]; } else { assert p[k] == ext[k - |stem|]; }
      }
    }
    SplitNoSep(p, '/');
    SplitExtOfName(stem, ext);
  }

  /**
   * A file directly in the base directory whose name has no extension,
   * such as a hidden `.slcio` file, is its own dataset under its whole name.
   */
  lemma TopFileWithoutExtension(name: string)
    requires '/' !in name && DotsOnlyLeading(name)
    ensures ExtractDatasetName(name) == name
  {
    SplitNoSep(name, '/');
    SplitExtLeadingDots(name);
  }

  // ---------------------------------------------------------------------
  // find_slcio_files: grouping
  // ---------------------------------------------------------------------

  /**
   * A file found under the base directory: the path as found and its path
   * relative to the base directory (what `os.path.relpath` gives).
   */
  datatype FoundFile = FoundFile(path: string, relPath: string)

  function DatasetOf(f: FoundFile): string {
    ExtractDatasetName(f.relPath)
  }

  predicate Distinct(s: seq<string>) {
    forall i, j :: 0 <= i < j < |s| ==> s[i] != s[j]
  }

  /** The groups after `found` has been added to `groups`, one file after the other. */
  function Grouped(groups: map<string, seq<string>>, found: seq<FoundFile>): (r: map<string, seq<string>>)
    ensures groups.Keys <= r.Keys
    ensures found != [] ==> DatasetOf(found[|found| - 1]) in r
    decreases |found|
  {
    if found == [] then groups
    else
      var init := found[..|found| - 1];
      var g := Grouped(groups, init);
      var f := found[|found| - 1];
      var name := DatasetOf(f);
      g[name := (if name in g then g[name] else []) + [f.path]]
  }

  /** The dataset names in the order they were first added. */
  function NamesAfter(names: seq<string>, found: seq<FoundFile>): seq<string>
    decreases |found|
  {
    if found == [] then names
    else
      var ns := NamesAfter(names, found[..|found| - 1]);
      var name := DatasetOf(found[|found| - 1]);
      if name in ns then ns else ns + [name]
  }

  /** The paths of the found files that belong to dataset `name`, in the order they were found. */
  function FilesOf(found: seq<FoundFile>, name: string): (r: seq<string>)
    ensures |r| <= |found|
  {
    if found == [] then []
    else (if DatasetOf(found[0]) == name then [found[0].path] else []) + FilesOf(found[1..], name)
  }

  function Paths(found: seq<FoundFile>): (r: seq<string>)
    ensures |r| == |found|
  {
    if found == [] then [] else Paths(found[..|found| - 1]) + [found[|found| - 1].path]
  }

  /** All grouped files, dataset after dataset. */
  function AllFiles(names: seq<string>, groups: map<string, seq<string>>): seq<string>
    requires forall n :: n in names ==> n in groups
  {
    if names == [] then [] else groups[names[0]] + AllFiles(names[1..], groups)
  }

  lemma FilesOfSnoc(found: seq<FoundFile>, f: FoundFile, name: string)
    ensures FilesOf(found + [f], name) == FilesOf(found, name) + (if DatasetOf(f) == name then [f.path] else [])
    decreases |found|
  {
    if found != [] {
      assert (found + [f])[1..] == found[1..] + [f];
      FilesOfSnoc(found[1..], f, name);
    } else {
      assert found + [f] == [f];
    }
  }

  /**
   * Every dataset present before keeps its files and gains, at the end,
   * exactly the found files that belong to it, in discovery order; a new
   * dataset holds exactly its found files.
   */
  lemma {:induction false} GroupedContents(groups: map<string, seq<string>>, found: seq<FoundFile>, name: string)
    ensures name in Grouped(groups, found) <==> name in groups || FilesOf(found, name) != []
    ensures name in Grouped(groups, found) ==>
      Grouped(groups, found)[name] == (if name in groups then groups[name] else []) + FilesOf(found, name)
    decreases |found|
  {
    if found != [] {
      var init, f := found[..|found| - 1], found[|found| - 1];
      assert found == init + [f];
      GroupedContents(groups, init, name);
      FilesOfSnoc(init, f, name);
    }
  }

  /** The name list and the keys of the groups stay in step, and no name is listed twice. */
  lemma {:induction false} NamesTrackGroups(names: seq<string>, groups: map<string, seq<string>>, found: seq<FoundFile>)
    requires (forall n :: n in groups <==> n in names) && Distinct(names)
    ensures var ns := NamesAfter(names, found);
      (forall n :: n in Grouped(groups, found) <==> n in ns) && Distinct(ns)
      && |names| <= |ns| && ns[..|names|] == names
    decreases |found|
  {
    if found != [] {
      NamesTrackGroups(names, groups, found[..|found| - 1]);
      var ns := NamesAfter(names, found[..|found| - 1]);
      assert (ns + [DatasetOf(found[|found| - 1])])[..|names|] == ns[..|names|];
    }
  }

  /** Changing one listed group changes the concatenation by that group's files. */
  lemma {:induction false} AllFilesUpdate(names: seq<string>, groups: map<string, seq<string>>, name: string, extra: seq<string>)
    requires forall n :: n in names ==> n in groups
    requires name in groups && Distinct(names)
    ensures multiset(AllFiles(names, groups[name := groups[name] + extra]))
      == multiset(AllFiles(names, groups)) + (if name in names then multiset(extra) else multiset{})
    decreases |names|
  {
    if names != [] {
      assert Distinct(names[1..]) by {
        forall i, j | 0 <= i < j < |names[1..]| ensures names[1..][i] != names[1..][j] {
          assert names[1..][i] == names[i + 1] && names[1..][j] == names[j + 1];
        }
      }
      AllFilesUpdate(names[1..], groups, name, extra);
      if names[0] == name {
        assert name !in names[1..] by {
          forall k | 0 <= k < |names[1..]| ensures names[1..][k] != name {
            assert names[1..][k] == names[k + 1];
          }
        }
      }
    }
  }

  /** Adding a group under a name that is not used elsewhere leaves the others' concatenation alone. */
  lemma {:induction false} AllFilesFresh(names: seq<string>, groups: map<string, seq<string>>, name: string, files: seq<string>)
    requires forall n :: n in names ==> n in groups
    requires name !in names
    ensures AllFiles(names, groups[name := files]) == AllFiles(names, groups)
    decreases |names|
  {
    if names != [] {
      AllFilesFresh(names[1..], groups, name, files);
    }
  }

  lemma {:induction false} AllFilesAppend(names: seq<string>, name: string, groups: map<string, seq<string>>)
    requires forall n :: n in names ==> n in groups
    requires name in groups
    ensures AllFiles(names + [name], groups) == AllFiles(names, groups) + groups[name]
    decreases |names|
  {
    if names == [] {
      assert names + [name] == [name];
    } else {
      assert (names + [name])[1..] == names[1..] + [name];
      AllFilesAppend(names[1..], name, groups);
    }
  }

  lemma DistinctAppend(s: seq<string>, x: string)
    requires Distinct(s) && x !in s
    ensures Distinct(s + [x])
  {
  }

  /** Grouping loses no file and duplicates none: the grouped files are the old ones plus every found file once. */
  lemma {:induction false} GroupingKeepsEveryFile(names: seq<string>, groups: map<string, seq<string>>, found: seq<FoundFile>)
    requires (forall n :: n in groups <==> n in names) && Distinct(names)
    ensures var ns := NamesAfter(names, found);
      (forall n :: n in ns ==> n in Grouped(groups, found))
      && multiset(AllFiles(ns, Grouped(groups, found))) == multiset(AllFiles(names, groups)) + multiset(Paths(found))
    decreases |found|
  {
    NamesTrackGroups(names, groups, found);
    if found != [] {
      var init, f := found[..|found| - 1], found[|found| - 1];
      GroupingKeepsEveryFile(names, groups, init);
      NamesTrackGroups(names, groups, init);
      var ns, g := NamesAfter(names, init), Grouped(groups, init);
      var name := DatasetOf(f);
      assert Grouped(groups, found) == g[name := (if name in g then g[name] else []) + [f.path]];
      assert NamesAfter(names, found) == if name in ns then ns else ns + [name];
      assert Paths(found) == Paths(init) + [f.path];
      AddFileKeepsFiles(ns, g, f);
    }
  }

  /** Adding one file to the groups adds its path once to the concatenation of all groups. */
  lemma AddFileKeepsFiles(ns: seq<string>, g: map<string, seq<string>>, f: FoundFile)
    requires (forall n :: n in g <==> n in ns) && Distinct(ns)
    ensures var name := DatasetOf(f);
      var ns' := if name in ns then ns else ns + [name];
      var g' := g[name := (if name in g then g[name] else []) + [f.path]];
      (forall n :: n in ns' ==> n in g')
      && multiset(AllFiles(ns', g')) == multiset(AllFiles(ns, g)) + multiset{f.path}
  {
    var name := DatasetOf(f);
    if name in ns {
      AllFilesUpdate(ns, g, name, [f.path]);
    } else {
      var g' := g[name := [] + [f.path]];
      AllFilesFresh(ns, g, name, [] + [f.path]);
      AllFilesAppend(ns, name, g');
    }
  }

  // ---------------------------------------------------------------------
  // process_dataset: the event count
  // ---------------------------------------------------------------------

  /** The count after reading a file of `n` events from `count` on, stopping once a positive cap is reached. */
  function ReadEvents(maxEvents: int, count: nat, n: nat): (r: nat)
    ensures count <= r <= count + n
    ensures maxEvents > 0 && count <= maxEvents ==> r <= maxEvents
    decreases n
  {
    if n == 0 || (maxEvents > 0 && count >= maxEvents) then count
    else ReadEvents(maxEvents, count + 1, n - 1)
  }

  /** The count and the number of files opened after the files (their event numbers) from `count` on. */
  function Processed(maxEvents: int, count: nat, files: seq<nat>): (r: (nat, nat))
    ensures count <= r.0 && r.1 <= |files|
    ensures maxEvents > 0 && count <= maxEvents ==> r.0 <= maxEvents
    decreases |files|
  {
    if files == [] then (count, 0)
    else
      var c := ReadEvents(maxEvents, count, files[0]);
      if maxEvents > 0 && c >= maxEvents then (c, 1)
      else var r := Processed(maxEvents, c, files[1..]); (r.0, r.1 + 1)
  }

  function Sum(files: seq<nat>): nat {
    if files == [] then 0 else files[0] + Sum(files[1..])
  }

  /** The total, or the cap when there is a positive cap below it. */
  function Capped(maxEvents: int, total: nat): nat {
    if maxEvents > 0 && total > maxEvents then maxEvents else total
  }

  lemma {:induction false} ReadEventsCapped(maxEvents: int, count: nat, n: nat)
    requires maxEvents <= 0 || count <= maxEvents
    ensures ReadEvents(maxEvents, count, n) == Capped(maxEvents, count + n)
    decreases n
  {
    if n > 0 && !(maxEvents > 0 && count >= maxEvents) {
      ReadEventsCapped(maxEvents, count + 1, n - 1);
    }
  }

  lemma {:induction false} ProcessedCapped(maxEvents: int, count: nat, files: seq<nat>)
    requires maxEvents <= 0 || count <= maxEvents
    ensures Processed(maxEvents, count, files).0 == Capped(maxEvents, count + Sum(files))
    ensures Processed(maxEvents, count, files).1 <= |files|
    ensures maxEvents <= 0 || count + Sum(files) < maxEvents ==> Processed(maxEvents, count, files).1 == |files|
    decreases |files|
  {
    if files != [] {
      ReadEventsCapped(maxEvents, count, files[0]);
      var c := ReadEvents(maxEvents, count, files[0]);
      if !(maxEvents > 0 && c >= maxEvents) {
        ProcessedCapped(maxEvents, c, files[1..]);
      }
    }
  }

  /**
   * With a positive cap the count never exceeds it and is the total number
   * of events otherwise; without a cap every event of every file is counted
   * and every file is opened.
   */
  lemma EventCountCapped(maxEvents: int, files: seq<nat>)
    ensures var r := Processed(maxEvents, 0, files);
      r.0 == (if maxEvents > 0 && Sum(files) > maxEvents then maxEvents else Sum(files))
      && (maxEvents > 0 ==> r.0 <= maxEvents)
      && r.1 <= |files|
      && (maxEvents <= 0 || Sum(files) < maxEvents ==> r.1 == |files|)
  {
    ProcessedCapped(maxEvents, 0, files);
  }

  /** Once the files opened so far hold enough events to reach a positive cap, no further file is opened. */
  lemma {:induction false} NoFileAfterCap(maxEvents: int, count: nat, files: seq<nat>, k: nat)
    requires maxEvents > 0 && count <= maxEvents
    requires 1 <= k <= |files| && count + Sum(files[..k]) >= maxEvents
    ensures Processed(maxEvents, count, files).1 <= k
    decreases k
  {
    ReadEventsCapped(maxEvents, count, files[0]);
    var c := ReadEvents(maxEvents, count, files[0]);
    assert files[..k] == [files[0]] + files[1..][..k - 1];
    if c < maxEvents {
      NoFileAfterCap(maxEvents, c, files[1..], k - 1);
    }
  }

  /** The analyzer's state that the model keeps: the event cap and the datasets found so far. */
  class SlcioAnalyzer {
    const maxEvents: int
    /** The keys of `datasets` in insertion order. */
    var names: seq<string>
    var datasets: map<string, seq<string>>

    ghost predicate Valid()
      reads this
    {
      (forall n :: n in datasets <==> n in names) && Distinct(names)
    }

    constructor(maxEvents: int)
      ensures Valid()
      ensures this.maxEvents == maxEvents && names == [] && datasets == map[]
    {
      this.maxEvents := maxEvents;
      names := [];
      datasets := map[];
    }

    /**
     * `find_slcio_files` after discovery: each found file is appended to the
     * list of its dataset, which is created on first use; datasets of
     * earlier calls stay.
     */
    method FindSlcioFiles(found: seq<FoundFile>) returns (result: map<string, seq<string>>)
      requires Valid()
      modifies this
      ensures Valid()
      ensures datasets == Grouped(old(datasets), found) && names == NamesAfter(old(names), found)
      ensures result == datasets
    {
      var i := 0;
      while i < |found|
        invariant 0 <= i <= |found|
        invariant datasets == Grouped(old(datasets), found[..i])
        invariant names == NamesAfter(old(names), found[..i])
        invariant Valid()
      {
        var name := ExtractDatasetName(found[i].relPath);
        assert found[..i + 1][..i] == found[..i];
        if name !in datasets {
          datasets := datasets[name := []];
          DistinctAppend(names, name);
          names := names + [name];
        }
        datasets := datasets[name := datasets[name] + [found[i].path]];
        i := i + 1;
      }
      assert found[..|found|] == found;
      result := datasets;
    }

    /**
     * `process_dataset` without the reading and the histograms: the files
     * are given by their numbers of events. The count goes up by one for
     * every event read (whether or not its particle collection could be
     * used); a positive cap stops the reading at the cap, and no further
     * file is opened.
     */
    method ProcessDataset(fileEvents: seq<nat>) returns (eventCount: nat, filesOpened: nat)
      ensures (eventCount, filesOpened) == Processed(maxEvents, 0, fileEvents)
    {
      eventCount, filesOpened := 0, 0;
      var i := 0;
      while i < |fileEvents|
        invariant 0 <= i <= |fileEvents| && filesOpened == i
        invariant Processed(maxEvents, 0, fileEvents)
          == (Processed(maxEvents, eventCount, fileEvents[i..]).0, filesOpened + Processed(maxEvents, eventCount, fileEvents[i..]).1)
      {
        ghost var start := eventCount;
        filesOpened := filesOpened + 1;
        var read := 0;
        while read < fileEvents[i]
          invariant read <= fileEvents[i]
          invariant ReadEvents(maxEvents, eventCount, fileEvents[i] - read) == ReadEvents(maxEvents, start, fileEvents[i])
        {
          if maxEvents > 0 && eventCount >= maxEvents {
            break;
          }
          eventCount := eventCount + 1;
          read := read + 1;
        }
        assert fileEvents[i..][1..] == fileEvents[i + 1..];
        if maxEvents > 0 && eventCount >= maxEvents {
          break;
        }
        i := i + 1;
      }
    }
  }
}
