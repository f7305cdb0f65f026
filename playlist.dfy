/** The playlist entries and the line-oriented store they are saved to:
    one `[PlayList] <name>` line opens a section and each `[File] <path>`
    line below it adds one entry. These functions say what `save_PlayList`
    writes, what `load_PlayList` collects and what `readPlayList` lists; the
    loops that do it are methods of `Looper.AudioLooperUi`. */
module Playlist {
  import opened Common
  import opened Text

  /** One row of `PlayList`: the name shown in the list box and the path
      that is loaded. */
  datatype Entry = Entry(displayName: string, path: string)

  /** The entry the player builds for a path: its basename is the name. */
  function EntryFor(path: string): Entry {
    Entry(Basename(path), path)
  }

  /** An entry as the player builds it. */
  predicate WellNamed(e: Entry) {
    e.displayName == Basename(e.path)
  }

  function EntriesFor(paths: seq<string>): (es: seq<Entry>)
  {
    seq(|paths|, k requires 0 <= k < |paths| => EntryFor(paths[k]))
  }

  function Paths(list: seq<Entry>): (ps: seq<string>)
  {
    seq(|list|, k requires 0 <= k < |list| => list[k].path)
  }

  const PlayListKey := "[PlayList]"
  const FileKey := "[File]"

  function HeaderLine(name: string): string {
    PlayListKey + " " + name
  }

  function FileLine(path: string): string {
    FileKey + " " + path
  }

  // ---------------------------------------------------------------------
  // save_PlayList
  // ---------------------------------------------------------------------

  /** The lines `save_PlayList(name, …)` writes: a header, then one file line
      per entry in list order. */
  function SectionLines(name: string, list: seq<Entry>): (ls: seq<string>)
    ensures |ls| == |list| + 1 && ls[0] == HeaderLine(name)
    ensures forall k :: 0 <= k < |list| ==> ls[k + 1] == FileLine(list[k].path)
  {
    [HeaderLine(name)] + seq(|list|, k requires 0 <= k < |list| => FileLine(list[k].path))
  }

  /** The store after `save_PlayList(name, append)`: the section is added at
      the end of the old text, or replaces it when `append` is false. */
  function SaveText(store: string, name: string, list: seq<Entry>, append: bool): (r: string)
    ensures Terminated(r) && |r| > |if append then store else ""|
  {
    (if append then store else "") + Unlines(SectionLines(name, list))
  }

  // ---------------------------------------------------------------------
  // load_PlayList and readPlayList
  // ---------------------------------------------------------------------

  /** The value of `ListName` in `load_PlayList` once `lines` are read: the
      name of the nearest header above, "" before any header. */
  function ListNameAfter(lines: seq<string>): string {
    if lines == [] then ""
    else
      var line := lines[|lines| - 1];
      if FirstToken(line) == PlayListKey then RemoveSub(line, PlayListKey + " ")
      else ListNameAfter(lines[..|lines| - 1])
  }

  /** What `load_PlayList(name)` appends to `PlayList` after reading `lines`:
      every `[File]` line whose current list name is `name`, in file order,
      named by the basename of its path. */
  function Collected(lines: seq<string>, name: string): (es: seq<Entry>)
    ensures |es| <= |lines|
  {
    if lines == [] then []
    else
      var line := lines[|lines| - 1];
      Collected(lines[..|lines| - 1], name) +
      (if ListNameAfter(lines) == name && FirstToken(line) == FileKey
       then [EntryFor(RemoveSub(line, FileKey + " "))] else [])
  }

  /** Every collected entry is named by the basename of its path. */
  lemma {:induction false} CollectedWellNamed(lines: seq<string>, name: string)
    ensures forall k :: 0 <= k < |Collected(lines, name)| ==> WellNamed(Collected(lines, name)[k])
  {
    if lines != [] {
      CollectedWellNamed(lines[..|lines| - 1], name);
    }
  }

  /** What `readPlayList` appends to `PlayListNames` after reading `lines`:
      the name of every header, in file order, repeats kept. */
  function Names(lines: seq<string>): (ns: seq<string>)
    ensures |ns| <= |lines|
  {
    if lines == [] then []
    else
      var line := lines[|lines| - 1];
      Names(lines[..|lines| - 1]) +
      (if FirstToken(line) == PlayListKey then [RemoveSub(line, PlayListKey + " ")] else [])
  }

  /** One more line read: how the current list name, the collected entries
      and the listed names change, as the reading loops do it. */
  lemma ReadStep(lines: seq<string>, i: nat, name: string)
    requires i < |lines|
    ensures ListNameAfter(lines[..i + 1]) ==
            if FirstToken(lines[i]) == PlayListKey then RemoveSub(lines[i], PlayListKey + " ")
            else ListNameAfter(lines[..i])
    ensures Collected(lines[..i + 1], name) ==
            Collected(lines[..i], name) +
            (if ListNameAfter(lines[..i + 1]) == name && FirstToken(lines[i]) == FileKey
             then [EntryFor(RemoveSub(lines[i], FileKey + " "))] else [])
    ensures Names(lines[..i + 1]) ==
            Names(lines[..i]) +
            (if FirstToken(lines[i]) == PlayListKey then [RemoveSub(lines[i], PlayListKey + " ")] else [])
  {
    assert lines[..i + 1][..i] == lines[..i];
  }

  /** One iteration of `load_PlayList`'s loop: from the list name and the
      entries after `lines[..i]`, the key of line `i` gives those after
      `lines[..i + 1]`. */
  lemma LoadStep(lines: seq<string>, i: nat, name: string)
    requires i < |lines|
    ensures var key := FirstToken(lines[i]);
            var listName := ListNameAfter(lines[..i]);
            var got := Collected(lines[..i], name);
            var next := if key == PlayListKey then RemoveSub(lines[i], PlayListKey + " ") else listName;
            next == ListNameAfter(lines[..i + 1]) &&
            (if next == name && key == FileKey then got + [EntryFor(RemoveSub(lines[i], FileKey + " "))] else got) ==
            Collected(lines[..i + 1], name)
  {
    ReadStep(lines, i, name);
  }

  // ---------------------------------------------------------------------
  // Round trips
  // ---------------------------------------------------------------------

  lemma HeaderLineParts(name: string)
    ensures FirstToken(HeaderLine(name)) == PlayListKey
    ensures RemoveSub(HeaderLine(name), PlayListKey + " ") == name
  {
    FirstTokenOfWord(PlayListKey, name);
    assert HeaderLine(name) == PlayListKey + " " + name == (PlayListKey + " ") + name;
    RemoveSubPrefix(PlayListKey + " ", name);
  }

  lemma FileLineParts(path: string)
    ensures FirstToken(FileLine(path)) == FileKey
    ensures RemoveSub(FileLine(path), FileKey + " ") == path
  {
    FirstTokenOfWord(FileKey, path);
    assert FileLine(path) == FileKey + " " + path == (FileKey + " ") + path;
    RemoveSubPrefix(FileKey + " ", path);
  }

  function FileLines(list: seq<Entry>): (ls: seq<string>)
    ensures |ls| == |list|
  {
    seq(|list|, k requires 0 <= k < |list| => FileLine(list[k].path))
  }

  /** Reading a header line switches the current list to its name and adds
      the name to the listed names. */
  lemma AfterHeader(lines: seq<string>, name: string, wanted: string)
    ensures ListNameAfter(lines + [HeaderLine(name)]) == name
    ensures Collected(lines + [HeaderLine(name)], wanted) == Collected(lines, wanted)
    ensures Names(lines + [HeaderLine(name)]) == Names(lines) + [name]
  {
    HeaderLineParts(name);
    var all := lines + [HeaderLine(name)];
    assert all[..|all| - 1] == lines;
  }

  /** Reading a file line keeps the current list and adds an entry when that
      list is the wanted one. */
  lemma AfterFileLine(lines: seq<string>, path: string, wanted: string)
    ensures ListNameAfter(lines + [FileLine(path)]) == ListNameAfter(lines)
    ensures Collected(lines + [FileLine(path)], wanted) ==
            Collected(lines, wanted) + (if ListNameAfter(lines) == wanted then [EntryFor(path)] else [])
    ensures Names(lines + [FileLine(path)]) == Names(lines)
  {
    FileLineParts(path);
    var all := lines + [FileLine(path)];
    assert all[..|all| - 1] == lines;
    assert FileKey != PlayListKey;
  }

  /** File lines read after `start` all go to the list that is current
      after `start`: it stays current and no name is listed. */
  lemma {:induction false} FilesAfterName(start: seq<string>, list: seq<Entry>, n: nat)
    requires n <= |list|
    ensures ListNameAfter(start + FileLines(list[..n])) == ListNameAfter(start)
    ensures Names(start + FileLines(list[..n])) == Names(start)
  {
    if n == 0 {
      assert start + FileLines(list[..0]) == start;
    } else {
      var pre := start + FileLines(list[..n - 1]);
      var p := list[n - 1].path;
      FilesAfterName(start, list, n - 1);
      FileLinesSnoc(list, n);
      assert start + (FileLines(list[..n - 1]) + [FileLine(p)]) == pre + [FileLine(p)];
      NameStep(pre, p, ListNameAfter(start), Names(start));
    }
  }

  lemma NameStep(pre: seq<string>, p: string, name: string, names: seq<string>)
    requires ListNameAfter(pre) == name && Names(pre) == names
    ensures ListNameAfter(pre + [FileLine(p)]) == name && Names(pre + [FileLine(p)]) == names
  {
    AfterFileLine(pre, p, "");
  }

  /** The file lines read after `start` are collected when the list that
      is current after `start` is the wanted one, and skipped otherwise. */
  lemma {:induction false} FilesAfter(start: seq<string>, list: seq<Entry>, n: nat, wanted: string)
    requires n <= |list|
    ensures Collected(start + FileLines(list[..n]), wanted) ==
            Collected(start, wanted) + (if ListNameAfter(start) == wanted then EntriesFor(Paths(list[..n])) else [])
  {
    if n == 0 {
      assert start + FileLines(list[..0]) == start;
      assert EntriesFor(Paths(list[..0])) == [];
    } else {
      var pre := start + FileLines(list[..n - 1]);
      var p := list[n - 1].path;
      FilesAfter(start, list, n - 1, wanted);
      FilesAfterName(start, list, n - 1);
      FilesStep(start, list, n);
      CollectStep(pre, p, wanted, Collected(start, wanted), ListNameAfter(start) == wanted,
                  EntriesFor(Paths(list[..n - 1])));
    }
  }

  lemma CollectStep(pre: seq<string>, p: string, wanted: string, c: seq<Entry>, current: bool, es: seq<Entry>)
    requires ListNameAfter(pre) == wanted <==> current
    requires Collected(pre, wanted) == c + (if current then es else [])
    ensures Collected(pre + [FileLine(p)], wanted) == c + (if current then es + [EntryFor(p)] else [])
  {
    AfterFileLine(pre, p, wanted);
  }

  lemma FilesStep(start: seq<string>, list: seq<Entry>, n: nat)
    requires 0 < n <= |list|
    ensures start + FileLines(list[..n]) == (start + FileLines(list[..n - 1])) + [FileLine(list[n - 1].path)]
    ensures EntriesFor(Paths(list[..n])) == EntriesFor(Paths(list[..n - 1])) + [EntryFor(list[n - 1].path)]
  {
    FileLinesSnoc(list, n);
    assert start + (FileLines(list[..n - 1]) + [FileLine(list[n - 1].path)]) ==
           (start + FileLines(list[..n - 1])) + [FileLine(list[n - 1].path)];
    EntriesSnoc(list, n);
  }

  lemma FileLinesSnoc(list: seq<Entry>, n: nat)
    requires 0 < n <= |list|
    ensures FileLines(list[..n]) == FileLines(list[..n - 1]) + [FileLine(list[n - 1].path)]
  {
    var a, b := FileLines(list[..n]), FileLines(list[..n - 1]);
    forall k | 0 <= k < n - 1 ensures a[k] == b[k] {
      assert list[..n][k] == list[..n - 1][k];
    }
  }

  lemma EntriesSnoc(list: seq<Entry>, n: nat)
    requires 0 < n <= |list|
    ensures EntriesFor(Paths(list[..n])) == EntriesFor(Paths(list[..n - 1])) + [EntryFor(list[n - 1].path)]
  {
    PathsSnoc(list, n);
    EntriesForSnoc(Paths(list[..n - 1]), list[n - 1].path);
  }

  lemma PathsSnoc(list: seq<Entry>, n: nat)
    requires 0 < n <= |list|
    ensures Paths(list[..n]) == Paths(list[..n - 1]) + [list[n - 1].path]
  {
    var a, b := Paths(list[..n]), Paths(list[..n - 1]);
    forall k | 0 <= k < n - 1 ensures a[k] == b[k] {
      assert list[..n][k] == list[..n - 1][k];
    }
  }

  lemma EntriesForSnoc(paths: seq<string>, p: string)
    ensures EntriesFor(paths + [p]) == EntriesFor(paths) + [EntryFor(p)]
  {
    var a, b := EntriesFor(paths + [p]), EntriesFor(paths);
    forall k | 0 <= k < |paths| ensures a[k] == b[k] {
      assert (paths + [p])[k] == paths[k];
    }
    assert a[|paths|] == EntryFor(p);
  }

  /** A whole section read after `before`: its name is current and listed,
      and its paths are collected when it is the wanted list. */
  lemma Section(before: seq<string>, name: string, list: seq<Entry>, wanted: string)
    ensures Names(before + [HeaderLine(name)] + FileLines(list)) == Names(before) + [name]
    ensures Collected(before + [HeaderLine(name)] + FileLines(list), wanted) ==
            Collected(before, wanted) + (if name == wanted then EntriesFor(Paths(list)) else [])
  {
    AfterHeader(before, name, wanted);
    FilesAfterName(before + [HeaderLine(name)], list, |list|);
    FilesAfter(before + [HeaderLine(name)], list, |list|, wanted);
    assert list[..|list|] == list;
  }

  /** Saving a list under `saved` and then loading `wanted` gives what the
      old store gave, followed by the saved paths when the names match;
      names and paths must hold no newline, and the old store must end with
      one (or be empty), since the header is written straight after it. */
  lemma SaveThenLoad(store: string, saved: string, list: seq<Entry>, wanted: string)
    requires Terminated(store)
    requires NoNewline(saved)
    requires forall k :: 0 <= k < |list| ==> NoNewline(list[k].path)
    ensures Collected(Lines(SaveText(store, saved, list, true)), wanted) ==
            Collected(Lines(store), wanted) + (if saved == wanted then EntriesFor(Paths(list)) else [])
  {
    SavedLines(store, saved, list);
    Section(Lines(store), saved, list, wanted);
  }

  /** The lines of the store after a save are the old lines and the section. */
  lemma SavedLines(store: string, saved: string, list: seq<Entry>)
    requires Terminated(store)
    requires NoNewline(saved)
    requires forall k :: 0 <= k < |list| ==> NoNewline(list[k].path)
    ensures Lines(SaveText(store, saved, list, true)) == Lines(store) + [HeaderLine(saved)] + FileLines(list)
  {
    var section := SectionLines(saved, list);
    assert SaveText(store, saved, list, true) == store + Unlines(section);
    SectionNoNewline(saved, list);
    LinesAfterAppend(store, section);
    SectionSplit(saved, list);
  }

  lemma SectionSplit(saved: string, list: seq<Entry>)
    ensures SectionLines(saved, list) == [HeaderLine(saved)] + FileLines(list)
  {
  }

  lemma SectionNoNewline(saved: string, list: seq<Entry>)
    requires NoNewline(saved)
    requires forall k :: 0 <= k < |list| ==> NoNewline(list[k].path)
    ensures forall k :: 0 <= k < |SectionLines(saved, list)| ==> NoNewline(SectionLines(saved, list)[k])
  {
    var section := SectionLines(saved, list);
    assert NoNewline(HeaderLine(saved));
    forall k | 1 <= k < |section| ensures NoNewline(section[k]) {
      assert NoNewline(list[k - 1].path);
    }
  }

  /** The round trip: a list saved under a name that the store does not
      hold yet loads back as the same entries. */
  lemma RoundTrip(store: string, name: string, list: seq<Entry>)
    requires Terminated(store)
    requires Collected(Lines(store), name) == []
    requires NoNewline(name)
    requires forall k :: 0 <= k < |list| ==> NoNewline(list[k].path) && WellNamed(list[k])
    ensures Collected(Lines(SaveText(store, name, list, true)), name) == list
    ensures Collected(Lines(SaveText(store, name, list, false)), name) == list
  {
    SaveThenLoad(store, name, list, name);
    SaveThenLoad("", name, list, name);
    var u := Unlines(SectionLines(name, list));
    assert "" + u == u;
    assert SaveText(store, name, list, false) == u == SaveText("", name, list, true);
    assert Lines("") == [];
    assert EntriesFor(Paths(list)) == list;
  }

  /** Saving adds the saved name at the end of the listed names, even when
      the store already holds a list of that name. */
  lemma SaveThenList(store: string, saved: string, list: seq<Entry>)
    requires Terminated(store)
    requires NoNewline(saved)
    requires forall k :: 0 <= k < |list| ==> NoNewline(list[k].path)
    ensures Names(Lines(SaveText(store, saved, list, true))) == Names(Lines(store)) + [saved]
  {
    SavedLines(store, saved, list);
    Section(Lines(store), saved, list, saved);
  }
}
