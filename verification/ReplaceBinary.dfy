/** Replacing the running executable by the one in a release archive. Every file-system step may fail, and the process
    may stop after any of them: the disk keeps every state it has been through. */
module BinaryReplacement {
  import opened Options

  type Bytes = seq<bv8>

  /** The executable, its .bak neighbour, the temporary files beside it, and everything else on the disk. */
  datatype Path = Target | Backup | Temp(id: nat) | Other(id: nat)

  datatype File = File(content: Bytes, executable: bool)

  type Files = map<Path, File>

  /** An archive entry; the data of one that is not whole breaks off. */
  datatype Entry = Entry(name: string, regular: bool, data: Bytes, whole: bool)

  datatype Download = Unavailable | Archive(entries: seq<Entry>, intact: bool)

  datatype Header = EndOfArchive | Damaged | Found(entry: Entry)

  datatype Failure = NoFailure | TargetMissing | DownloadFailed | CreateFailed | ArchiveDamaged | MultipleFiles
    | ExtractFailed | CloseFailed | NoBinary | ChmodFailed | BackupFailed | RenameFailed

  /** Which steps fail. A copy with a limit breaks off after that many bytes. */
  datatype Faults = Faults(create: bool, extractLimit: Option<nat>, close: bool, chmod: bool, removeBackup: bool,
                           openTarget: bool, openBackup: bool, backupLimit: Option<nat>, closeBackup: bool, rename: bool,
                           removeTemp: bool)

  // ------------------------------------------------------------------ which entry is the binary

  function WithoutTrailingSlashes(path: string): string {
    if path != "" && path[|path| - 1] == '/' then WithoutTrailingSlashes(path[..|path| - 1]) else path
  }

  function LastComponent(path: string): string {
    if path == "" || path[|path| - 1] == '/' then "" else LastComponent(path[..|path| - 1]) + [path[|path| - 1]]
  }

  /** filepath.Base */
  function BaseName(path: string): string {
    if path == "" then "."
    else
      var name := LastComponent(WithoutTrailingSlashes(path));
      if name == "" then "/" else name
  }

  predicate Hidden(path: string) {
    var base := BaseName(path);
    base != "" && base[0] == '.'
  }

  lemma {:induction false} LastComponentOf(dir: string, name: string)
    requires '/' !in name && (dir == "" || dir[|dir| - 1] == '/')
    ensures LastComponent(dir + name) == name
  {
    var path := dir + name;
    if name == "" {
      assert path == dir;
    } else {
      var shorter := name[..|name| - 1];
      assert path[..|path| - 1] == dir + shorter && path[|path| - 1] == name[|name| - 1];
      LastComponentOf(dir, shorter);
      assert shorter + [name[|name| - 1]] == name;
    }
  }

  /** An entry is hidden by its own name, whatever the directories before it are called. */
  lemma HiddenByOwnName(dir: string, name: string)
    requires name != "" && '/' !in name && (dir == "" || dir[|dir| - 1] == '/')
    ensures Hidden(dir + name) <==> name[0] == '.'
    ensures BaseName(dir + name) == name
  {
    var path := dir + name;
    assert path[|path| - 1] == name[|name| - 1];
    LastComponentOf(dir, name);
  }

  lemma {:induction false} SlashesGo(path: string, slashes: string)
    requires path == "" || path[|path| - 1] != '/'
    requires forall i :: 0 <= i < |slashes| ==> slashes[i] == '/'
    ensures WithoutTrailingSlashes(path + slashes) == path
  {
    var long := path + slashes;
    if slashes == "" {
      assert long == path;
    } else {
      assert long[..|long| - 1] == path + slashes[..|slashes| - 1];
      SlashesGo(path, slashes[..|slashes| - 1]);
    }
  }

  /** Slashes at the end do not count; of nothing but slashes one is left, and of nothing a dot. */
  lemma BaseNameAt(dir: string, name: string, slashes: string)
    requires '/' !in name && (dir == "" || dir[|dir| - 1] == '/')
    requires forall i :: 0 <= i < |slashes| ==> slashes[i] == '/'
    ensures name != "" ==> BaseName(dir + name + slashes) == name
    ensures slashes != "" ==> BaseName(slashes) == "/" && !Hidden(slashes)
    ensures BaseName("") == "." && Hidden("")
  {
    if name != "" {
      assert (dir + name)[|dir + name| - 1] == name[|name| - 1];
      SlashesGo(dir + name, slashes);
      LastComponentOf(dir, name);
    }
    SlashesGo("", slashes);
    assert "" + slashes == slashes;
  }

  predicate Wanted(e: Entry) {
    e.regular && !Hidden(e.name)
  }

  function Candidates(entries: seq<Entry>): seq<Entry> {
    if entries == [] then []
    else
      var last := entries[|entries| - 1];
      Candidates(entries[..|entries| - 1]) + if Wanted(last) then [last] else []
  }

  ghost predicate AllWhole(entries: seq<Entry>) {
    forall i :: 0 <= i < |entries| ==> entries[i].whole
  }

  /** An archive that can be read to its end. */
  ghost predicate Readable(d: Download) {
    d.Archive? && d.intact && AllWhole(d.entries)
  }

  /** The binary a download delivers: the one wanted entry of an archive that can be read to its end. */
  ghost function Delivered(d: Download): Option<Bytes> {
    if Readable(d) && |Candidates(d.entries)| == 1
    then Some(Candidates(d.entries)[0].data) else None
  }

  /** What the archive reader finds after i entries. */
  function Next(d: Download, i: nat): Header
    requires d.Archive? && i <= |d.entries|
  {
    if i > 0 && !d.entries[i - 1].whole then Damaged
    else if i < |d.entries| then Found(d.entries[i])
    else if d.intact then EndOfArchive else Damaged
  }

  lemma CandidatesNext(entries: seq<Entry>, i: nat)
    requires i < |entries|
    ensures Candidates(entries[..i + 1]) == Candidates(entries[..i]) + if Wanted(entries[i]) then [entries[i]] else []
  {
    assert entries[..i + 1][..i] == entries[..i];
  }

  lemma {:induction false} CandidatesGrow(entries: seq<Entry>, i: nat)
    requires i <= |entries|
    ensures Candidates(entries[..i]) <= Candidates(entries)
    decreases |entries| - i
  {
    if i < |entries| {
      CandidatesNext(entries, i);
      CandidatesGrow(entries, i + 1);
    } else {
      assert entries[..i] == entries;
    }
  }

  /** The last component of each entry's name, and the directories before it. */
  ghost predicate Named(entries: seq<Entry>, dirs: seq<string>, names: seq<string>) {
    && |dirs| == |names| == |entries|
    && forall i :: 0 <= i < |entries| ==>
         && entries[i].name == dirs[i] + names[i] && names[i] != "" && '/' !in names[i]
         && (dirs[i] == "" || dirs[i][|dirs[i]| - 1] == '/')
  }

  /** A regular file whose own name does not begin with a dot. */
  predicate IsBinary(entries: seq<Entry>, names: seq<string>, i: nat)
    requires i < |entries| && i < |names|
  {
    entries[i].regular && names[i] != "" && names[i][0] != '.'
  }

  lemma WantedByName(entries: seq<Entry>, dirs: seq<string>, names: seq<string>, i: nat)
    requires Named(entries, dirs, names) && i < |entries|
    ensures Wanted(entries[i]) <==> IsBinary(entries, names, i)
  {
    HiddenByOwnName(dirs[i], names[i]);
  }

  lemma {:induction false} NoCandidates(entries: seq<Entry>)
    requires forall i :: 0 <= i < |entries| ==> !Wanted(entries[i])
    ensures Candidates(entries) == []
  {
    if entries != [] {
      NoCandidates(entries[..|entries| - 1]);
    }
  }

  lemma {:induction false} OneCandidate(entries: seq<Entry>, i: nat)
    requires i < |entries| && Wanted(entries[i])
    requires forall j :: 0 <= j < |entries| && j != i ==> !Wanted(entries[j])
    ensures Candidates(entries) == [entries[i]]
  {
    if i == |entries| - 1 {
      NoCandidates(entries[..i]);
    } else {
      OneCandidate(entries[..|entries| - 1], i);
    }
  }

  lemma {:induction false} SomeCandidate(entries: seq<Entry>, i: nat)
    requires i < |entries| && Wanted(entries[i])
    ensures |Candidates(entries)| >= 1
  {
    if i < |entries| - 1 {
      SomeCandidate(entries[..|entries| - 1], i);
    }
  }

  lemma {:induction false} SeveralCandidates(entries: seq<Entry>, i: nat, j: nat)
    requires i < j < |entries| && Wanted(entries[i]) && Wanted(entries[j])
    ensures |Candidates(entries)| >= 2
  {
    if j == |entries| - 1 {
      SomeCandidate(entries[..j], i);
    } else {
      SeveralCandidates(entries[..|entries| - 1], i, j);
    }
  }

  predicate NoBinaryAmong(entries: seq<Entry>, names: seq<string>)
    requires |names| == |entries|
  {
    forall i :: 0 <= i < |entries| ==> !IsBinary(entries, names, i)
  }

  predicate OnlyBinary(entries: seq<Entry>, names: seq<string>, i: nat)
    requires |names| == |entries| && i < |entries|
  {
    IsBinary(entries, names, i) && forall j :: 0 <= j < |entries| && j != i ==> !IsBinary(entries, names, j)
  }

  predicate SeveralBinaries(entries: seq<Entry>, names: seq<string>)
    requires |names| == |entries|
  {
    exists i, j :: 0 <= i < j < |entries| && IsBinary(entries, names, i) && IsBinary(entries, names, j)
  }

  /** What an archive that can be read to its end delivers, told from its entries' kinds and names: with exactly one regular
      file whose own name does not begin with a dot, its data, wherever it stands; with none or several, nothing. */
  lemma DeliveredByName(d: Download, dirs: seq<string>, names: seq<string>)
    requires Readable(d) && Named(d.entries, dirs, names)
    ensures forall i :: 0 <= i < |d.entries| && OnlyBinary(d.entries, names, i) ==> Delivered(d) == Some(d.entries[i].data)
    ensures Delivered(d).None? <==> NoBinaryAmong(d.entries, names) || SeveralBinaries(d.entries, names)
    ensures Candidates(d.entries) == [] <==> NoBinaryAmong(d.entries, names)
    ensures |Candidates(d.entries)| > 1 <==> SeveralBinaries(d.entries, names)
  {
    forall i | 0 <= i < |d.entries| ensures Wanted(d.entries[i]) <==> IsBinary(d.entries, names, i) {
      WantedByName(d.entries, dirs, names, i);
    }
    if i :| 0 <= i < |d.entries| && IsBinary(d.entries, names, i) {
      if j :| 0 <= j < |d.entries| && j != i && IsBinary(d.entries, names, j) {
        SeveralCandidates(d.entries, if i < j then i else j, if i < j then j else i);
      } else {
        OneCandidate(d.entries, i);
      }
    } else {
      NoCandidates(d.entries);
    }
  }

  /** The error tells none and several apart. */
  ghost predicate Explains(err: Failure, d: Download)
    requires d.Archive?
  {
    (err == MultipleFiles <==> |Candidates(d.entries)| > 1) && (err == NoBinary <==> Candidates(d.entries) == [])
  }

  predicate Fits(limit: Option<nat>, data: Bytes) {
    limit.Some? ==> |data| <= limit.value
  }

  /** What a write gets done before it fails. */
  function Written(limit: Option<nat>, data: Bytes): Bytes {
    if Fits(limit, data) then data else data[..limit.value]
  }

  /** After i entries, with all but the last known to be whole, content is what was extracted. */
  ghost predicate Scanned(d: Download, i: nat, found: bool, content: Bytes, limit: Option<nat>)
    requires d.Archive?
  {
    && i <= |d.entries|
    && (forall j :: 0 <= j < i - 1 ==> d.entries[j].whole)
    && |Candidates(d.entries[..i])| == (if found then 1 else 0)
    && content == (if found then Candidates(d.entries[..i])[0].data else [])
    && Fits(limit, content)
  }

  /** What the next header says about the download. */
  lemma ScanStep(d: Download, i: nat, found: bool, content: Bytes, limit: Option<nat>)
    requires d.Archive? && Scanned(d, i, found, content, limit)
    ensures Next(d, i).Damaged? ==> Delivered(d).None?
    ensures Next(d, i).EndOfArchive? ==> Delivered(d) == (if found then Some(content) else None)
    ensures Next(d, i).EndOfArchive? && !found ==> Candidates(d.entries) == []
    ensures Next(d, i).Found? && !Wanted(Next(d, i).entry) ==> Scanned(d, i + 1, found, content, limit)
  {
    if i == |d.entries| {
      assert d.entries[..i] == d.entries;
    } else {
      CandidatesNext(d.entries, i);
    }
  }

  /** What a wanted entry says about the download. */
  lemma ScanWanted(d: Download, i: nat, found: bool, content: Bytes, limit: Option<nat>)
    requires d.Archive? && Scanned(d, i, found, content, limit) && Next(d, i).Found? && Wanted(d.entries[i])
    ensures found ==> |Candidates(d.entries)| > 1
    ensures !found ==> (Delivered(d).Some? ==> d.entries[i].whole && Delivered(d).value == d.entries[i].data)
    ensures !found && Fits(limit, d.entries[i].data) ==> Scanned(d, i + 1, true, d.entries[i].data, limit)
  {
    CandidatesNext(d.entries, i);
    CandidatesGrow(d.entries, i + 1);
  }

  // ------------------------------------------------------------------ the disk

  /** The state b with another file at p, executable or not. */
  ghost predicate Writing(p: Path, executable: bool, a: Files, b: Files) {
    p in a && a == b[p := a[p]] && a[p].executable == executable
  }

  /** A history that goes on with nothing but writes to p. */
  ghost predicate OnlyWrites(p: Path, executable: bool, longer: seq<Files>, shorter: seq<Files>, b: Files) {
    && shorter <= longer
    && forall i :: |shorter| <= i < |longer| ==> Writing(p, executable, longer[i], b)
  }

  lemma OnlyWritesChain(p: Path, executable: bool, h2: seq<Files>, h1: seq<Files>, h0: seq<Files>, mid: Files, b: Files)
    requires OnlyWrites(p, executable, h1, h0, b) && OnlyWrites(p, executable, h2, h1, mid) && Writing(p, executable, mid, b)
    ensures OnlyWrites(p, executable, h2, h0, b)
  {
    forall i | |h0| <= i < |h2| ensures Writing(p, executable, h2[i], b) {
      if i < |h1| {
        assert h2[i] == h1[i];
      } else {
        assert Writing(p, executable, h2[i], mid);
      }
    }
  }

  class Disk {
    var files: Files
    ghost var history: seq<Files>

    constructor (files: Files)
      ensures this.files == files && history == [files]
    {
      this.files, this.history := files, [files];
    }

    /** A fresh name, readable by its owner only. */
    method CreateTemp(path: Path, fails: bool) returns (ok: bool)
      requires path !in files
      modifies this
      ensures ok == !fails && files == (if ok then old(files)[path := File([], false)] else old(files))
      ensures history == old(history) + [files]
    {
      if !fails {
        files := files[path := File([], false)];
      }
      history := history + [files];
      return !fails;
    }

    /** Writes data at the end of path, a byte at a time. */
    method Copy(path: Path, data: Bytes, limit: Option<nat>) returns (ok: bool)
      requires path in files
      modifies this
      ensures ok == Fits(limit, data)
      ensures Writing(path, old(files[path].executable), files, old(files))
      ensures files[path].content == old(files[path].content) + Written(limit, data)
      ensures OnlyWrites(path, old(files[path].executable), history, old(history), old(files))
    {
      ghost var before, executable := files[path].content, files[path].executable;
      for i := 0 to |data|
        invariant limit.Some? ==> i <= limit.value
        invariant Writing(path, executable, files, old(files)) && files[path].content == before + data[..i]
        invariant OnlyWrites(path, executable, history, old(history), old(files))
      {
        if limit == Some(i) {
          assert Written(limit, data) == data[..i];
          return false;
        }
        assert data[..i + 1] == data[..i] + [data[i]];
        files := files[path := files[path].(content := files[path].content + [data[i]])];
        history := history + [files];
      }
      assert data[..|data|] == data;
      return true;
    }

    method MakeExecutable(path: Path, fails: bool) returns (ok: bool)
      requires path in files
      modifies this
      ensures ok == !fails
      ensures files == if ok then old(files)[path := old(files[path]).(executable := true)] else old(files)
      ensures history == old(history) + [files]
    {
      if !fails {
        files := files[path := files[path].(executable := true)];
      }
      history := history + [files];
      return !fails;
    }

    method Remove(path: Path, fails: bool) returns (ok: bool)
      modifies this
      ensures ok == (!fails && path in old(files)) && files == (if ok then old(files) - {path} else old(files))
      ensures history == old(history) + [files]
    {
      ok := !fails && path in files;
      if ok {
        files := files - {path};
      }
      history := history + [files];
    }

    /** Empties path, creating it if there is none. */
    method OpenForWriting(path: Path, fails: bool) returns (ok: bool)
      modifies this
      ensures ok == !fails && history == old(history) + [files]
      ensures files == if ok then old(files)[path := File([], path in old(files) ==> old(files)[path].executable)]
                       else old(files)
    {
      if !fails {
        files := files[path := File([], path in files ==> files[path].executable)];
      }
      history := history + [files];
      return !fails;
    }

    /** Puts one file in the place of another in a single step. */
    method Rename(from: Path, to: Path, fails: bool) returns (ok: bool)
      requires from in files && from != to
      modifies this
      ensures ok == !fails && history == old(history) + [files]
      ensures files == if ok then (old(files) - {from})[to := old(files)[from]] else old(files)
    {
      if !fails {
        files := (files - {from})[to := files[from]];
      }
      history := history + [files];
      return !fails;
    }
  }

  // ------------------------------------------------------------------ extracting and copying

  /** Copies the archive's one wanted entry into the empty temporary file. */
  method Extract(disk: Disk, temp: Path, d: Download, limit: Option<nat>, closeFails: bool) returns (err: Failure)
    requires d.Archive? && temp in disk.files && disk.files[temp] == File([], false)
    modifies disk
    ensures err == NoFailure <==> Delivered(d).Some? && Fits(limit, Delivered(d).value) && !closeFails
    ensures err !in {ChmodFailed, BackupFailed, RenameFailed}
    ensures err == NoFailure ==> temp in disk.files && disk.files[temp] == File(Delivered(d).value, false)
    ensures err == MultipleFiles ==> |Candidates(d.entries)| > 1
    ensures err == NoBinary ==> Candidates(d.entries) == []
    ensures Readable(d) && limit.None? ==> err == if |Candidates(d.entries)| > 1 then MultipleFiles
                                                  else if closeFails then CloseFailed
                                                  else if Candidates(d.entries) == [] then NoBinary else NoFailure
    ensures Writing(temp, false, disk.files, old(disk.files))
    ensures OnlyWrites(temp, false, disk.history, old(disk.history), old(disk.files))
  {
    var found := false;
    var i := 0;
    while true
      invariant Writing(temp, false, disk.files, old(disk.files))
      invariant Scanned(d, i, found, disk.files[temp].content, limit)
      invariant OnlyWrites(temp, false, disk.history, old(disk.history), old(disk.files))
      decreases |d.entries| - i
    {
      ScanStep(d, i, found, disk.files[temp].content, limit);
      var header := Next(d, i);
      if header.EndOfArchive? {
        break;
      }
      if header.Damaged? {
        return ArchiveDamaged;
      }
      var entry := header.entry;
      if !Wanted(entry) {
        i := i + 1;
        continue;
      }
      ScanWanted(d, i, found, disk.files[temp].content, limit);
      if found {
        return MultipleFiles;
      }
      ghost var before, empty := disk.history, disk.files;
      var ok := disk.Copy(temp, entry.data, limit);
      OnlyWritesChain(temp, false, disk.history, before, old(disk.history), empty, old(disk.files));
      if !ok || !entry.whole {
        return ExtractFailed;
      }
      found := true;
      i := i + 1;
    }
    if closeFails {
      return CloseFailed;
    }
    return if found then NoFailure else NoBinary;
  }

  /** A history that goes on without touching anything but p. */
  ghost predicate OnlyTouches(p: Path, longer: seq<Files>, shorter: seq<Files>, b: Files) {
    && shorter <= longer
    && forall i :: |shorter| <= i < |longer| ==> longer[i] - {p} == b - {p}
  }

  function At(files: Files, p: Path): Option<File> {
    if p in files then Some(files[p]) else None
  }

  /** What a copy over a file, or to a new name, leaves there once both files are open. */
  function Copied(content: Bytes, over: Option<File>, faults: Faults): File {
    File(Written(faults.backupLimit, content), over.Some? ==> over.value.executable)
  }

  method CopyFile(disk: Disk, source: Path, destination: Path, faults: Faults) returns (ok: bool)
    requires source != destination
    modifies disk
    ensures ok <==> && source in old(disk.files) && !faults.openTarget && !faults.openBackup
                    && Fits(faults.backupLimit, old(disk.files)[source].content) && !faults.closeBackup
    ensures disk.files == if source !in old(disk.files) || faults.openTarget || faults.openBackup then old(disk.files)
                          else var content := old(disk.files)[source].content;
                               old(disk.files)[destination := Copied(content, At(old(disk.files), destination), faults)]
    ensures OnlyTouches(destination, disk.history, old(disk.history), old(disk.files))
  {
    if source !in disk.files || faults.openTarget {
      return false;
    }
    ok := disk.OpenForWriting(destination, faults.openBackup);
    if !ok {
      return;
    }
    ghost var content, over := disk.files[source].content, At(old(disk.files), destination);
    ok := disk.Copy(destination, disk.files[source].content, faults.backupLimit);
    assert [] + Written(faults.backupLimit, content) == Written(faults.backupLimit, content);
    assert disk.files[destination] == Copied(content, over, faults);
    assert disk.files == old(disk.files)[destination := disk.files[destination]];
    ok := ok && !faults.closeBackup;
  }

  // ------------------------------------------------------------------ the replacement

  /** What every state on the way looks like. The executable is the old one or all of the new one, and in the second case
      the backup, if one was asked for, is complete. A temporary file is executable only when it is all of the new one.
      Nothing else differs. */
  ghost predicate Safe(st: Files, before: Files, delivered: Option<Bytes>, backup: bool, temp: Path)
    requires Target in before
  {
    && Target in st
    && (|| st[Target] == before[Target]
        || (&& delivered.Some? && st[Target] == File(delivered.value, true)
            && (backup ==> Backup in st && st[Backup].content == before[Target].content)))
    && (temp in st && st[temp].executable ==> delivered == Some(st[temp].content))
    && st - {Target, temp, Backup} == before - {Target, temp, Backup}
    && (!backup ==> st - {Target, temp} == before - {Target, temp})
  }

  ghost predicate AllSafe(longer: seq<Files>, shorter: seq<Files>, before: Files, delivered: Option<Bytes>, backup: bool,
                          temp: Path)
    requires Target in before
  {
    && shorter <= longer
    && forall i :: |shorter| <= i < |longer| ==> Safe(longer[i], before, delivered, backup, temp)
  }

  lemma WritingIsSafe(longer: seq<Files>, shorter: seq<Files>, before: Files, start: Files, delivered: Option<Bytes>,
                      backup: bool, temp: Path)
    requires Target in before && temp.Temp? && temp !in before && start - {temp} == before
    requires OnlyWrites(temp, false, longer, shorter, start)
    ensures AllSafe(longer, shorter, before, delivered, backup, temp)
  {
    forall i | |shorter| <= i < |longer| ensures Safe(longer[i], before, delivered, backup, temp) {
      assert Writing(temp, false, longer[i], start);
      assert longer[i] - {temp} == before;
    }
  }

  /** The new binary is ready in the temporary file, and the old one still in place. */
  ghost predicate Staged(st: Files, before: Files, delivered: Option<Bytes>, backup: bool, temp: Path)
    requires Target in before
  {
    && delivered.Some? && temp in st && st[temp] == File(delivered.value, true)
    && Safe(st, before, delivered, backup, temp) && st[Target] == before[Target]
  }

  lemma BackupKeepsStaged(st: Files, before: Files, start: Files, delivered: Option<Bytes>, temp: Path)
    requires Target in before && temp.Temp? && Staged(start, before, delivered, true, temp)
    requires st - {Backup} == start - {Backup}
    ensures Staged(st, before, delivered, true, temp)
  {
    var rest := st - {Backup};
    assert Target in start - {Backup} && temp in start - {Backup};
    assert Target in rest && st[Target] == rest[Target] == start[Target];
    assert temp in rest && st[temp] == rest[temp] == start[temp];
    assert st - {Target, temp, Backup} == rest - {Target, temp};
    assert start - {Target, temp, Backup} == (start - {Backup}) - {Target, temp};
  }

  lemma RenameIsSafe(st: Files, before: Files, start: Files, delivered: Option<Bytes>, backup: bool, temp: Path)
    requires Target in before && temp.Temp? && Staged(start, before, delivered, backup, temp)
    requires backup ==> Backup in start && start[Backup].content == before[Target].content
    requires st == (start - {temp})[Target := start[temp]]
    ensures Safe(st, before, delivered, backup, temp)
    ensures temp !in st && st[Target] == File(delivered.value, true)
  {
    assert st - {Target, temp} == start - {Target, temp};
    assert st - {Target, temp, Backup} == start - {Target, temp, Backup};
    assert Backup in start <==> Backup in start - {temp};
  }

  /** The new binary gets as far as being ready in the temporary file. */
  ghost predicate Ready(before: Files, d: Download, faults: Faults) {
    && Target in before && Delivered(d).Some? && !faults.create && Fits(faults.extractLimit, Delivered(d).value)
    && !faults.close && !faults.chmod
  }

  ghost predicate BacksUp(before: Files, faults: Faults) {
    && Target in before && !faults.openTarget && !faults.openBackup && !faults.closeBackup
    && Fits(faults.backupLimit, before[Target].content)
  }

  /** Exactly when a replacement succeeds. Failing to remove the last backup or the temporary file does not matter. */
  ghost predicate Succeeds(before: Files, d: Download, backup: bool, faults: Faults) {
    Ready(before, d, faults) && !faults.rename && (backup ==> BacksUp(before, faults))
  }

  /** What is under the backup's name after the backup step, given what was. */
  function BackupAfter(last: Option<File>, content: Bytes, faults: Faults): Option<File> {
    var left := if faults.removeBackup then last else None;
    if faults.openTarget || faults.openBackup then left else Some(Copied(content, left, faults))
  }

  /** What is under the backup's name in the end. */
  ghost function FinalBackup(before: Files, d: Download, backup: bool, faults: Faults): Option<File> {
    if backup && Ready(before, d, faults) then BackupAfter(At(before, Backup), before[Target].content, faults)
    else At(before, Backup)
  }

  /** Exactly when the last backup is as it was in the end: none was asked for, or the failure came before the backup step,
      or at it, when nothing was opened and nothing removed; the copy may also happen to be the same file again. */
  ghost predicate BackupStays(before: Files, d: Download, backup: bool, faults: Faults) {
    || !backup || !Ready(before, d, faults)
    || (if faults.openTarget || faults.openBackup then Backup !in before || faults.removeBackup
        else && Backup in before && before[Backup].content == Written(faults.backupLimit, before[Target].content)
             && (faults.removeBackup || before[Backup].executable))
  }

  lemma LastBackupStays(before: Files, d: Download, backup: bool, faults: Faults)
    ensures FinalBackup(before, d, backup, faults) == At(before, Backup) <==> BackupStays(before, d, backup, faults)
  {
  }

  /** Replaces the last backup, if there is one, by a copy of the executable. */
  method BackUp(disk: Disk, temp: Path, faults: Faults, ghost before: Files, ghost delivered: Option<Bytes>)
    returns (ok: bool)
    requires Target in before && temp.Temp? && Staged(disk.files, before, delivered, true, temp)
    modifies disk
    ensures ok <==> BacksUp(before, faults)
    ensures Staged(disk.files, before, delivered, true, temp)
    ensures ok ==> Backup in disk.files && disk.files[Backup].content == before[Target].content
    ensures At(disk.files, Backup) == BackupAfter(At(old(disk.files), Backup), before[Target].content, faults)
    ensures AllSafe(disk.history, old(disk.history), before, delivered, true, temp)
  {
    ghost var start := disk.files;
    var _ := disk.Remove(Backup, faults.removeBackup);
    assert disk.files - {Backup} == start - {Backup};
    BackupKeepsStaged(disk.files, before, start, delivered, temp);
    ghost var middle, shorter := disk.files, disk.history;
    ok := CopyFile(disk, Target, Backup, faults);
    BackupKeepsStaged(disk.files, before, start, delivered, temp);
    forall i | |shorter| <= i < |disk.history| ensures Safe(disk.history[i], before, delivered, true, temp) {
      BackupKeepsStaged(disk.history[i], before, middle, delivered, temp);
    }
  }

  /** Gets the new binary ready in the temporary file. */
  method Stage(disk: Disk, d: Download, backup: bool, temp: Path, faults: Faults, ghost before: Files)
    returns (err: Failure)
    requires temp.Temp? && temp !in before && Target in before && d.Archive?
    requires disk.files == before[temp := File([], false)]
    modifies disk
    ensures err == NoFailure <==> && Delivered(d).Some? && Fits(faults.extractLimit, Delivered(d).value)
                                  && !faults.close && !faults.chmod
    ensures err == MultipleFiles ==> |Candidates(d.entries)| > 1
    ensures err == NoBinary ==> Candidates(d.entries) == []
    ensures Readable(d) && faults.extractLimit.None? && !faults.close ==> Explains(err, d)
    ensures err !in {BackupFailed, RenameFailed}
    ensures disk.files - {temp} == before && Safe(disk.files, before, Delivered(d), backup, temp)
    ensures err == NoFailure ==> Staged(disk.files, before, Delivered(d), backup, temp)
    ensures AllSafe(disk.history, old(disk.history), before, Delivered(d), backup, temp)
  {
    err := Extract(disk, temp, d, faults.extractLimit, faults.close);
    WritingIsSafe(disk.history, old(disk.history), before, old(disk.files), Delivered(d), backup, temp);
    if err != NoFailure {
      return;
    }
    var ok := disk.MakeExecutable(temp, faults.chmod);
    return if ok then NoFailure else ChmodFailed;
  }

  /** The steps while the temporary file exists. */
  method Install(disk: Disk, d: Download, backup: bool, temp: Path, faults: Faults, ghost before: Files)
    returns (err: Failure)
    requires temp.Temp? && temp !in before && Target in before && d.Archive? && !faults.create
    requires disk.files == before[temp := File([], false)]
    modifies disk
    ensures err == NoFailure <==> Succeeds(before, d, backup, faults)
    ensures err == MultipleFiles ==> |Candidates(d.entries)| > 1
    ensures err == NoBinary ==> Candidates(d.entries) == []
    ensures Readable(d) && faults.extractLimit.None? && !faults.close ==> Explains(err, d)
    ensures Target in disk.files && Safe(disk.files, before, Delivered(d), backup, temp)
    ensures err != NoFailure ==> disk.files[Target] == before[Target]
    ensures err == NoFailure ==> temp !in disk.files && disk.files[Target] == File(Delivered(d).value, true)
    ensures err !in {NoFailure, BackupFailed, RenameFailed} ==> disk.files - {temp} == before
    ensures err in {NoFailure, BackupFailed, RenameFailed} <==> Ready(before, d, faults)
    ensures err == BackupFailed <==> Ready(before, d, faults) && backup && !BacksUp(before, faults)
    ensures At(disk.files, Backup) == FinalBackup(before, d, backup, faults)
    ensures AllSafe(disk.history, old(disk.history), before, Delivered(d), backup, temp)
  {
    err := Stage(disk, d, backup, temp, faults, before);
    if err != NoFailure {
      return;
    }
    var ok;
    if backup {
      ok := BackUp(disk, temp, faults, before, Delivered(d));
      if !ok {
        return BackupFailed;
      }
    }
    ghost var start := disk.files;
    ok := disk.Rename(temp, Target, faults.rename);
    if !ok {
      return RenameFailed;
    }
    RenameIsSafe(disk.files, before, start, Delivered(d), backup, temp);
    return NoFailure;
  }

  lemma RemoveIsSafe(st: Files, before: Files, last: Files, delivered: Option<Bytes>, backup: bool, temp: Path)
    requires Target in before && temp.Temp? && Safe(last, before, delivered, backup, temp)
    requires st == last || st == last - {temp}
    ensures Safe(st, before, delivered, backup, temp) && st[Target] == last[Target] && At(st, Backup) == At(last, Backup)
    ensures last - {temp} == before && temp !in st && temp !in before ==> st == before
  {
    assert st - {Target, temp} == last - {Target, temp};
    assert st - {Target, temp, Backup} == last - {Target, temp, Backup};
  }

  lemma AllSafeOn(longer: seq<Files>, shorter: seq<Files>, st: Files, before: Files, delivered: Option<Bytes>, backup: bool,
                  temp: Path)
    requires Target in before && AllSafe(longer, shorter, before, delivered, backup, temp)
    requires Safe(st, before, delivered, backup, temp)
    ensures AllSafe(longer + [st], shorter, before, delivered, backup, temp)
  {
  }

  lemma AllSafeChain(h2: seq<Files>, h1: seq<Files>, h0: seq<Files>, before: Files, delivered: Option<Bytes>, backup: bool,
                     temp: Path)
    requires Target in before && AllSafe(h1, h0, before, delivered, backup, temp)
    requires AllSafe(h2, h1, before, delivered, backup, temp)
    ensures AllSafe(h2, h0, before, delivered, backup, temp)
  {
  }

  /** replaceBinary: temp is the unused name the system picks for the temporary file. Crash-safe, since every state on the
      way is safe, and all or nothing: an error leaves the executable as it was. */
  method ReplaceBinary(disk: Disk, d: Download, backup: bool, temp: Path, faults: Faults) returns (err: Failure)
    requires temp.Temp? && temp !in disk.files
    modifies disk
    ensures err == NoFailure <==> Succeeds(old(disk.files), d, backup, faults)
    ensures err == MultipleFiles ==> d.Archive? && |Candidates(d.entries)| > 1
    ensures err == NoBinary ==> d.Archive? && Candidates(d.entries) == []
    ensures Target in old(disk.files) && Readable(d) && !faults.create && faults.extractLimit.None? && !faults.close ==>
              Explains(err, d)
    ensures Target in old(disk.files) ==>
              && AllSafe(disk.history, old(disk.history), old(disk.files), Delivered(d), backup, temp)
              && Safe(disk.files, old(disk.files), Delivered(d), backup, temp)
              && disk.files[Target] == if err == NoFailure then File(Delivered(d).value, true) else old(disk.files)[Target]
    ensures temp in disk.files ==> err != NoFailure && faults.removeTemp
    ensures err in {NoFailure, BackupFailed, RenameFailed} <==> Ready(old(disk.files), d, faults)
    ensures err == BackupFailed <==> Ready(old(disk.files), d, faults) && backup && !BacksUp(old(disk.files), faults)
    ensures At(disk.files, Backup) == FinalBackup(old(disk.files), d, backup, faults)
    ensures err !in {NoFailure, BackupFailed, RenameFailed} && !faults.removeTemp ==> disk.files == old(disk.files)
  {
    if Target !in disk.files {
      return TargetMissing;
    }
    if d.Unavailable? {
      return DownloadFailed;
    }
    ghost var before := disk.files;
    var ok := disk.CreateTemp(temp, faults.create);
    if !ok {
      return CreateFailed;
    }
    ghost var created := disk.history;
    err := Install(disk, d, backup, temp, faults, before);
    ghost var last, installed := disk.files, disk.history;
    AllSafeChain(installed, created, old(disk.history), before, Delivered(d), backup, temp);
    var _ := disk.Remove(temp, faults.removeTemp);
    RemoveIsSafe(disk.files, before, last, Delivered(d), backup, temp);
    AllSafeOn(installed, old(disk.history), disk.files, before, Delivered(d), backup, temp);
  }

  const NO_FAULTS := Faults(false, None, false, false, false, false, false, None, false, false, false)

  /** With nothing failing, a replacement succeeds exactly when the archive can be read and holds exactly one regular file
      whose own name does not begin with a dot; it is then that file's data which is installed. */
  lemma SucceedsByName(before: Files, d: Download, dirs: seq<string>, names: seq<string>, backup: bool)
    requires Target in before && d.Archive? && Named(d.entries, dirs, names)
    ensures Succeeds(before, d, backup, NO_FAULTS) <==>
            Readable(d) && exists i :: 0 <= i < |d.entries| && OnlyBinary(d.entries, names, i)
    ensures forall i :: 0 <= i < |d.entries| && OnlyBinary(d.entries, names, i) && Readable(d) ==>
              Delivered(d) == Some(d.entries[i].data)
  {
    if Readable(d) {
      DeliveredByName(d, dirs, names);
      if i :| 0 <= i < |d.entries| && IsBinary(d.entries, names, i) {
        assert OnlyBinary(d.entries, names, i) || SeveralBinaries(d.entries, names) by {
          if j :| 0 <= j < |d.entries| && j != i && IsBinary(d.entries, names, j) {
            assert i < j || j < i;
          }
        }
      }
    }
  }

  const LOSING_DISK: Files := map[Target := File([1], true), Backup := File([2], true)]
  const RELEASE: Download := Archive([Entry("frppc", true, [3], true)], true)
  const OPEN_FAILS := Faults(false, None, false, false, false, false, true, None, false, false, false)

  /** An archive with one wanted entry delivers it. */
  lemma OneEntry(e: Entry)
    requires Wanted(e) && e.whole
    ensures Delivered(Archive([e], true)) == Some(e.data)
  {
    assert [e][..0] == [];
    assert Candidates([e]) == Candidates([]) + [e] == [e];
  }

  lemma Releases()
    ensures Delivered(RELEASE) == Some([3])
  {
    HiddenByOwnName("", "frppc");
    assert "" + "frppc" == "frppc";
    OneEntry(RELEASE.entries[0]);
  }

  /** A disk on which the last backup is lost: it is removed, the new one cannot be opened, and the replacement fails. */
  lemma BackupLost()
    ensures !BackupStays(LOSING_DISK, RELEASE, true, OPEN_FAILS) && !Succeeds(LOSING_DISK, RELEASE, true, OPEN_FAILS)
    ensures Backup in LOSING_DISK && FinalBackup(LOSING_DISK, RELEASE, true, OPEN_FAILS) == None
  {
    Releases();
  }

  /** The same replacement, step by step. */
  method LosesBackup() returns (disk: Disk, err: Failure)
    ensures err == BackupFailed && |disk.history| > 0 && disk.history[0] == LOSING_DISK
    ensures Target in disk.files && disk.files[Target] == LOSING_DISK[Target] && Backup !in disk.files
  {
    Releases();
    BackupLost();
    disk := new Disk(LOSING_DISK);
    err := ReplaceBinary(disk, RELEASE, true, Temp(0), OPEN_FAILS);
  }
}
