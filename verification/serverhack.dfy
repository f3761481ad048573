/** decrypt-escape-room-terminal/serverhack.py: the second escape-room
    shell. It differs from terminal.py in that `list` sorts the current
    folder's entries in place (folders first, each group by name), `wget`
    accepts four spellings of the tools address after stripping the
    argument, and the tree it builds is larger. */
module ServerHack {
  import opened Wrappers
  import opened Vfs
  import opened CommandLine

  /** The host and file of the tools archive. */
  const BkTools: string := "178.345.235.23/bk.tools.zip"

  /** The addresses `download_file_command` accepts: the bare address or
      the address after "http://", "https://" or "ftp://". */
  predicate IsBkToolsUrl(u: string) {
    u == BkTools || u == "http://" + BkTools || u == "https://" + BkTools || u == "ftp://" + BkTools
  }

  /** `download_file_command` downloads from `url` exactly when the
      stripped address is one of the four it accepts. */
  predicate Accepted(url: string) {
    IsBkToolsUrl(Strip(url))
  }

  /** What a line does to the file system and the session. */
  datatype Action = Skip | List | ChangeDir(dir: string) | Fetch(url: string) | Unpack(name: string) | Quit

  /** The branch of `server_hack_task`'s loop a line takes: a line without
      tokens does nothing; otherwise the first token is the command and the
      second, or ".", its argument. The loop strips the line and takes its
      first two tokens, so this is the action of the parsed request. */
  function ActionOf(line: string): (a: Action)
  {
    var ts := Split(line);
    if ts == [] then Skip
    else Dispatch(Request(ts[0], if |ts| > 1 then ts[1] else "."))
  }

  /** A blank line is skipped, and any other line takes the branch of the
      request `ParseLine` reads from it. */
  lemma ActionOfParsed(line: string)
    ensures ActionOf(line) == match ParseLine(line) case None => Skip case Some(req) => Dispatch(req)
  {
    SplitEmptyIffAllSpace(line);
  }

  /** The branch a parsed request takes: each command of the shell selects
      its action, `wget` hands its argument to `download_file_command`, and
      any other request does nothing. */
  function Dispatch(req: Request): (r: Action)
    ensures r == List <==> req.command == "list"
    ensures r == Quit <==> req.command == "exit"
    ensures r.ChangeDir? <==> req.command == "cd"
    ensures r.Unpack? <==> req.command == "extract"
    ensures r.ChangeDir? ==> r.dir == req.arg
    ensures r.Unpack? ==> r.name == req.arg
    ensures r.Fetch? <==> req.command == "wget"
    ensures r.Fetch? ==> r.url == req.arg
  {
    if req.command == "list" then List
    else if req.command == "cd" then ChangeDir(req.arg)
    else if req.command == "wget" then Fetch(req.arg)
    else if req.command == "extract" then Unpack(req.arg)
    else if req.command == "exit" then Quit
    else Skip
  }

  /** `wget` downloads exactly when the second token is one of the four
      addresses: a token has nothing to strip, and a missing argument
      becomes ".", which is none of them. */
  lemma ActionOfDownload(line: string)
    ensures (ActionOf(line).Fetch? && Accepted(ActionOf(line).url)) <==> |Split(line)| >= 2 && Split(line)[0] == "wget" && IsBkToolsUrl(Split(line)[1])
  {
    var ts := Split(line);
    if ts != [] {
      if |ts| >= 2 {
        StripToken(ts[1]);
      } else {
        StripToken(".");
      }
    }
  }

  /** The branch a parsed request takes in the loop as written. The
      `terminal` module it imports defines `show_progress` with a single
      parameter, so the two-argument call that opens
      `download_file_command` and the one made before extracting an
      existing archive raise a TypeError; the same module defines no
      `clear_terminal`, so `exit` raises an AttributeError before it
      reaches `exit(0)`. The loop catches both and prints them: `wget`,
      `extract` and `exit` change nothing and the session goes on. */
  function DispatchAsWritten(req: Request): (r: Action)
    ensures r == match Dispatch(req) case Fetch(_) => Skip case Unpack(_) => Skip case Quit => Skip case a => a
  {
    if req.command == "list" then List
    else if req.command == "cd" then ChangeDir(req.arg)
    else Skip
  }

  /** The action of a line in the loop as written: it agrees with
      `ActionOf` on every line except those that download, unpack or quit,
      which it turns into no-ops. */
  function ActionAsWritten(line: string): (r: Action)
    ensures r == match ActionOf(line) case Fetch(_) => Skip case Unpack(_) => Skip case Quit => Skip case a => a
  {
    var ts := Split(line);
    if ts == [] then Skip
    else DispatchAsWritten(Request(ts[0], if |ts| > 1 then ts[1] else "."))
  }

  /** The request `wget 178.345.235.23/bk.tools.zip` downloads the archive
      in the intended shell and does nothing as written; `exit` ends the
      intended session and does not end the one as written. */
  lemma AsWrittenNeitherDownloadsNorExits()
    ensures Dispatch(Request("wget", BkTools)) == Fetch(BkTools) && Accepted(BkTools)
    ensures DispatchAsWritten(Request("wget", BkTools)) == Skip
    ensures Dispatch(Request("extract", "bk.tools.zip")) == Unpack("bk.tools.zip")
    ensures DispatchAsWritten(Request("extract", "bk.tools.zip")) == Skip
    ensures Dispatch(Request("exit", ".")) == Quit
    ensures DispatchAsWritten(Request("exit", ".")) == Skip
  {
    assert IsToken(BkTools);
    StripToken(BkTools);
  }

  /** None of the first `n` lines says `exit`. */
  ghost predicate NoQuitBefore(lines: seq<string>, n: nat)
    requires n <= |lines|
  {
    forall j :: 0 <= j < n ==> ActionOf(lines[j]) != Quit
  }

  /** The line `line` takes the session `a` to the session `b`: `zip` is
      the archive `wget` fetches and `made` the folder an `extract` adds.
      Only the current folder and its entries change, and a new folder
      joins the tree when an archive is unpacked. */
  ghost predicate Executed(zip: VirtualFile, line: string, a: Session, made: Option<VirtualFolder>, b: Session) {
    a.current in a.tree &&
    match ActionOf(line)
    case List => made.None? && Updated(a, b, SortByKey(a.tree[a.current]))
    case ChangeDir(dir) => made.None? && Moved(a, b, CdFrom(a.current, a.tree[a.current], dir))
    case Fetch(url) => made.None? && Updated(a, b, if Accepted(url) then a.tree[a.current] + [File(zip)] else a.tree[a.current])
    case Unpack(name) => Extracted(a, name, made, b)
    case _ => made.None? && b == a
  }

  /** The `j`-th line takes the `j`-th session of `trace` to the next. */
  ghost predicate ExecutedAt(zip: VirtualFile, lines: seq<string>, trace: seq<Session>, made: seq<Option<VirtualFolder>>, j: nat)
    requires j < |lines| && j < |made| && j + 1 < |trace|
  {
    Executed(zip, lines[j], trace[j], made[j], trace[j + 1])
  }

  /** The session of `server_hack_task`: the current folder and the
      archive `wget` fetches; `Repr` holds every folder the session can
      reach. */
  class Shell {
    var current: VirtualFolder
    const zip: VirtualFile
    ghost var Repr: set<VirtualFolder>

    ghost predicate Valid()
      reads this, Repr
    {
      current in Repr && Enclosed(Repr) && FoldersOf(File(zip)) <= Repr
    }

    /** The tree `server_hack_task` builds: the root holds the folders
        "log", "usr" and "lib" and the text file "iporf.chr"; the archive
        "bk.tools.zip" holds "cr.pdf", "run.txt" and "camera.shl". */
    constructor (serverLogText: string)
      ensures Valid() && fresh(Repr)
      ensures zip.ZipFile? && zip.name == "bk.tools.zip"
      ensures zip.content == [File(PrintableFile("cr.pdf")), File(TextFile("run.txt", "-- nothing --")), File(ExecutableFile("camera.shl"))]
      ensures current.name == "" && current.Parent() == current && |current.files| == 4
      ensures forall k :: 0 <= k < 3 ==> current.files[k].Folder? && current.files[k].folder.Parent() == current
      ensures current.files[0].folder.name == "log" && current.files[1].folder.name == "usr" && current.files[2].folder.name == "lib"
      ensures current.files[3] == File(TextFile("iporf.chr", "-- nothing --"))
      ensures current.files[0].folder.files == [File(TextFile("server.log", serverLogText))]
      ensures current.files[1].folder.files == [File(TextFile("dconf.txt", "-- empty --")), File(TextFile("yuri.chr", "-- deleted --"))]
      ensures current.files[2].folder.files == [File(TextFile("abcd.bin", "-- invalid data --"))]
    {
      var serverLog := File(TextFile("server.log", serverLogText));
      var fake1 := File(TextFile("run.txt", "-- nothing --"));
      var fake2 := File(TextFile("dconf.txt", "-- empty --"));
      var fake3 := File(TextFile("yuri.chr", "-- deleted --"));
      var fake4 := File(TextFile("iporf.chr", "-- nothing --"));
      var fake5 := File(TextFile("abcd.bin", "-- invalid data --"));
      var archive := MakeZip("bk.tools.zip", 0.91, [File(PrintableFile("cr.pdf")), fake1, File(ExecutableFile("camera.shl"))]);
      var root := new VirtualFolder("", [], None);
      var folder1 := new VirtualFolder("log", [serverLog], Some(root));
      var folder2 := new VirtualFolder("usr", [fake2, fake3], Some(root));
      var folder3 := new VirtualFolder("lib", [fake5], Some(root));
      root.files := [Folder(folder1), Folder(folder2), Folder(folder3), fake4];
      zip := archive.value;
      current := root;
      Repr := {root, folder1, folder2, folder3};
      new;
      NoFoldersAmongFiles([serverLog]);
      NoFoldersAmongFiles([fake2, fake3]);
      NoFoldersAmongFiles([fake5]);
      NoFoldersAmongFiles([fake4]);
      NoFoldersAmongFiles(zip.content);
      RootWithThreeFoldersEnclosed(root, folder1, folder2, folder3, fake4);
    }

    /** The session as it stands. */
    ghost function Snapshot(): (s: Session)
      reads this, Repr
      ensures s.current == current && s.tree.Keys == Repr
      ensures forall f :: f in Repr ==> s.tree[f] == f.files
    {
      Session(current, map f | f in Repr :: f.files)
    }

    /** One pass of the loop on the line `line`: the session before and
        after are related as `Executed` says for that line, and `exit`
        reports whether the line says `exit`. `made` is the folder an
        `extract` adds, if any. */
    method Execute(line: string) returns (exit: bool, ghost made: Option<VirtualFolder>)
      requires Valid()
      modifies this`current, this`Repr, current`files
      ensures Valid() && old(Repr) <= Repr && fresh(Repr - old(Repr))
      ensures exit <==> ActionOf(line) == Quit
      ensures Executed(zip, line, old(Snapshot()), made, Snapshot())
      ensures made.Some? ==> fresh(made.value)
    {
      exit, made := false, None;
      match ActionOf(line)
      case List =>
        ListCurrent();
      case ChangeDir(dir) =>
        CdStaysEnclosed(Repr, current, dir);
        current := current.Cd(dir);
        MovedPointwise(old(Snapshot()), Snapshot(), current);
      case Fetch(url) =>
        if Accepted(url) {
          DownloadArchive();
        }
      case Unpack(name) =>
        made := ExtractInCurrent(name);
      case Quit =>
        exit := true;
      case Skip =>
    }

    /** `list`: the current folder's entries are sorted in place, folders
        first and each group by name. */
    method ListCurrent()
      requires Valid()
      modifies current`files
      ensures Valid() && current.files == SortByKey(old(current.files))
      ensures Updated(old(Snapshot()), Snapshot(), SortByKey(old(current.files)))
    {
      ghost var oldFiles := current.files;
      assert ClosedIn(current, Repr);
      var listing := current.Ls();
      SortKeepsEnclosed(Repr, current, oldFiles);
      UpdatedPointwise(old(Snapshot()), Snapshot(), SortByKey(oldFiles));
    }

    /** `wget` with an accepted address: the archive is appended to the
        current folder. */
    method DownloadArchive()
      requires Valid()
      modifies current`files
      ensures Valid() && current.files == old(current.files) + [File(zip)]
      ensures Updated(old(Snapshot()), Snapshot(), old(current.files) + [File(zip)])
    {
      ghost var oldFiles := current.files;
      assert ClosedIn(current, Repr);
      current.files := current.files + [File(zip)];
      AppendKeepsEnclosed(Repr, current, oldFiles, File(zip));
      UpdatedPointwise(old(Snapshot()), Snapshot(), oldFiles + [File(zip)]);
    }

    /** `extract`: an archive named `arg` in the current folder is unpacked
        into a new folder `made` appended to it; anything else changes
        nothing. */
    method ExtractInCurrent(arg: string) returns (made: Option<VirtualFolder>)
      requires Valid()
      modifies this`Repr, current`files
      ensures Valid() && old(Repr) <= Repr && fresh(Repr - old(Repr))
      ensures made.None? ==> Repr == old(Repr)
      ensures made.Some? ==> fresh(made.value) && Repr == old(Repr) + {made.value}
      ensures Extracted(old(Snapshot()), arg, made, Snapshot())
    {
      var d := current;
      ghost var oldFiles := d.files;
      assert ClosedIn(d, Repr);
      made := ExtractFileCommand(d, arg);
      if made.Some? {
        var g := made.value;
        assert arg != "." && arg != "..";
        ExtractKeepsEnclosed(Repr, d, oldFiles, arg, g);
        Repr := Repr + {g};
        ExtendedPointwise(old(Snapshot()), Snapshot(), g, g.files);
      } else {
        MovedPointwise(old(Snapshot()), Snapshot(), current);
      }
    }

    /** The loop over the lines typed: each line is executed until one says
        `exit`, and `n` lines are read. `trace` holds the session before
        the first line and after each line read, and `made` the folder
        each line adds. */
    method Run(lines: seq<string>) returns (n: nat, ghost trace: seq<Session>, ghost made: seq<Option<VirtualFolder>>)
      requires Valid()
      modifies this`current, this`Repr, Repr
      ensures Valid() && old(Repr) <= Repr
      ensures n <= |lines| && forall j :: 0 <= j < n - 1 ==> ActionOf(lines[j]) != Quit
      ensures n == |lines| || (n > 0 && ActionOf(lines[n - 1]) == Quit)
      ensures |trace| == n + 1 && |made| == n && trace[0] == old(Snapshot()) && trace[n] == Snapshot()
      ensures forall j :: 0 <= j < n ==> ExecutedAt(zip, lines, trace, made, j)
    {
      n, trace, made := 0, [Snapshot()], [];
      while n < |lines|
        invariant n <= |lines| && Valid()
        invariant old(Repr) <= Repr && fresh(Repr - old(Repr))
        invariant NoQuitBefore(lines, n)
        invariant |trace| == n + 1 && |made| == n && trace[0] == old(Snapshot()) && trace[n] == Snapshot()
        invariant forall j :: 0 <= j < n ==> ExecutedAt(zip, lines, trace, made, j)
      {
        ghost var before := Snapshot();
        var exit, m := Execute(lines[n]);
        ghost var after := Snapshot();
        assert Executed(zip, lines[n], before, m, after);
        TraceExtends(zip, lines, trace, made, n, after, m);
        trace, made := trace + [after], made + [m];
        if exit {
          assert NoQuitBefore(lines, n);
          n := n + 1;
          return;
        }
        NoQuitExtends(lines, n);
        n := n + 1;
      }
    }
  }

  /** Appending the step of line `n` to a trace of the first `n` lines
      gives a trace of the first `n + 1`. */
  lemma TraceExtends(zip: VirtualFile, lines: seq<string>, trace: seq<Session>, made: seq<Option<VirtualFolder>>, n: nat, after: Session, m: Option<VirtualFolder>)
    requires n < |lines| && |trace| == n + 1 && |made| == n
    requires forall j :: 0 <= j < n ==> ExecutedAt(zip, lines, trace, made, j)
    requires Executed(zip, lines[n], trace[n], m, after)
    ensures forall j :: 0 <= j <= n ==> ExecutedAt(zip, lines, trace + [after], made + [m], j)
  {
    forall j | 0 <= j <= n
      ensures ExecutedAt(zip, lines, trace + [after], made + [m], j)
    {
      if j < n {
        assert ExecutedAt(zip, lines, trace, made, j);
      }
    }
  }

  lemma NoQuitExtends(lines: seq<string>, n: nat)
    requires n < |lines| && NoQuitBefore(lines, n) && ActionOf(lines[n]) != Quit
    ensures NoQuitBefore(lines, n + 1)
  {
  }

  lemma {:induction false} NoFoldersAmongFiles(s: seq<Instance>)
    requires forall k :: 0 <= k < |s| ==> s[k].File? && !s[k].file.ZipFile?
    ensures FoldersIn(s) == {}
  {
    if s != [] {
      NoFoldersAmongFiles(s[1..]);
    }
  }

  /** A root holding three folders and one more entry with no folders,
      where the three folders hold no folders themselves, is closed under
      parents and entries. */
  lemma RootWithThreeFoldersEnclosed(root: VirtualFolder, a: VirtualFolder, b: VirtualFolder, c: VirtualFolder, x: Instance)
    requires root.Parent() == root && a.Parent() == root && b.Parent() == root && c.Parent() == root
    requires root.files == [Folder(a), Folder(b), Folder(c), x] && FoldersIn([x]) == {}
    requires FoldersIn(a.files) == {} && FoldersIn(b.files) == {} && FoldersIn(c.files) == {}
    ensures Enclosed({root, a, b, c})
  {
    var s := root.files;
    assert s[1..][1..][1..] == [x];
    assert FoldersIn(s[1..][1..]) == {c};
    assert FoldersIn(s[1..]) == {b, c};
    assert FoldersIn(s) == {a, b, c};
  }
}
