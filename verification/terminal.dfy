/** decrypt-escape-room-terminal/terminal.py: the first escape-room shell.
    Each input line is parsed into a command and an argument; `cd` moves
    the current folder, `wget` with the one accepted address downloads the
    archive into it, `extract` unpacks an archive in it, and `exit` ends the
    session. The other commands only print. */
module Terminal {
  import opened Wrappers
  import opened Vfs
  import opened CommandLine

  /** The only address `wget` accepts. */
  const DownloadUrl: string := "178.345.235.23/hhtgh.zip"

  /** What a line does to the file system and the session. */
  datatype Action = Skip | ChangeDir(dir: string) | Download | Unpack(name: string) | Quit

  /** The branch of the main loop a line takes: a line without tokens
      does nothing; otherwise the first token is the command and the
      second, or ".", its argument. The loop strips the line and takes its
      first two tokens, so this is the action of the parsed request. */
  function ActionOf(line: string): (a: Action)
  {
    var ts := Split(line);
    if ts == [] then Skip
    else Dispatch(Request(ts[0], if |ts| > 1 then ts[1] else "."))
  }

  /** A blank line is skipped, and any other line takes the branch of the
      request `ParseLine` reads from it. */
  lemma ActionOfParsed(line: string)
    ensures ActionOf(line) == match ParseLine(line) case None => Skip case Some(req) => Dispatch(req)
  {
    SplitEmptyIffAllSpace(line);
  }

  /** The branch a parsed request takes: each command of the shell selects
      its action, `wget` only with the accepted address, and any other
      request does nothing. */
  function Dispatch(req: Request): (r: Action)
    ensures r == Quit <==> req.command == "exit"
    ensures r.ChangeDir? <==> req.command == "cd"
    ensures r.Unpack? <==> req.command == "extract"
    ensures r.ChangeDir? ==> r.dir == req.arg
    ensures r.Unpack? ==> r.name == req.arg
    ensures r == Download <==> req.command == "wget" && req.arg == DownloadUrl
  {
    if req.command == "cd" then ChangeDir(req.arg)
    else if req.command == "wget" then (if req.arg == DownloadUrl then Download else Skip)
    else if req.command == "extract" then Unpack(req.arg)
    else if req.command == "exit" then Quit
    else Skip
  }

  /** The download line of the puzzle is accepted. */
  lemma DownloadLineAccepted(command: string, url: string)
    requires command == "wget" && url == DownloadUrl
    ensures ActionOf(command + " " + url) == Download
  {
    assert IsToken(command) && IsToken(url);
    assert JoinWords([command, url]) == command + " " + url by {
      assert [command, url][1..] == [url];
    }
    SplitJoinWords([command, url]);
  }

  /** None of the first `n` lines says `exit`. */
  ghost predicate NoQuitBefore(lines: seq<string>, n: nat)
    requires n <= |lines|
  {
    forall j :: 0 <= j < n ==> ActionOf(lines[j]) != Quit
  }

  /** The line `line` takes the session `a` to the session `b`: `zip` is
      the archive `wget` fetches and `made` the folder an `extract` adds.
      Only the current folder and its entries change, and a new folder
      joins the tree when an archive is unpacked. */
  ghost predicate Executed(zip: VirtualFile, line: string, a: Session, made: Option<VirtualFolder>, b: Session) {
    a.current in a.tree &&
    match ActionOf(line)
    case ChangeDir(dir) => made.None? && Moved(a, b, CdFrom(a.current, a.tree[a.current], dir))
    case Download => made.None? && Updated(a, b, a.tree[a.current] + [File(zip)])
    case Unpack(name) => Extracted(a, name, made, b)
    case _ => made.None? && b == a
  }

  /** The `j`-th line takes the `j`-th session of `trace` to the next. */
  ghost predicate ExecutedAt(zip: VirtualFile, lines: seq<string>, trace: seq<Session>, made: seq<Option<VirtualFolder>>, j: nat)
    requires j < |lines| && j < |made| && j + 1 < |trace|
  {
    Executed(zip, lines[j], trace[j], made[j], trace[j + 1])
  }

  /** Appending the step of line `n` to a trace of the first `n` lines
      gives a trace of the first `n + 1`. */
  lemma TraceExtends(zip: VirtualFile, lines: seq<string>, trace: seq<Session>, made: seq<Option<VirtualFolder>>, n: nat, after: Session, m: Option<VirtualFolder>)
    requires n < |lines| && |trace| == n + 1 && |made| == n
    requires forall j :: 0 <= j < n ==> ExecutedAt(zip, lines, trace, made, j)
    requires Executed(zip, lines[n], trace[n], m, after)
    ensures forall j :: 0 <= j <= n ==> ExecutedAt(zip, lines, trace + [after], made + [m], j)
  {
    forall j | 0 <= j <= n
      ensures ExecutedAt(zip, lines, trace + [after], made + [m], j)
    {
      if j < n {
        assert ExecutedAt(zip, lines, trace, made, j);
      }
    }
  }

  lemma NoQuitExtends(lines: seq<string>, n: nat)
    requires n < |lines| && NoQuitBefore(lines, n) && ActionOf(lines[n]) != Quit
    ensures NoQuitBefore(lines, n + 1)
  {
  }

  /** The shell of `main`: the current folder and the archive `wget`
      fetches; `Repr` holds every folder the session can reach. */
  class Shell {
    var current: VirtualFolder
    const zip: VirtualFile
    ghost var Repr: set<VirtualFolder>

    ghost predicate Valid()
      reads this, Repr
    {
      current in Repr && Enclosed(Repr) && FoldersOf(File(zip)) <= Repr
    }

    /** The tree `main` builds: the root holds the folder "log", which holds
        the text file "server.log" with the log text read at start-up; the
        archive "hhtgh.zip" holds the printable "cr.pdf". */
    constructor (serverLogText: string)
      ensures Valid() && fresh(Repr)
      ensures zip.ZipFile? && zip.name == "hhtgh.zip" && zip.content == [File(PrintableFile("cr.pdf"))]
      ensures current.name == "" && current.Parent() == current && |current.files| == 1
      ensures current.files[0].Folder? && current.files[0].folder.name == "log"
      ensures current.files[0].folder.Parent() == current
      ensures current.files[0].folder.files == [File(TextFile("server.log", serverLogText))]
    {
      var serverLog := File(TextFile("server.log", serverLogText));
      var archive := MakeZip("hhtgh.zip", 0.91, [File(PrintableFile("cr.pdf"))]);
      var root := new VirtualFolder("", [], None);
      var folder := new VirtualFolder("log", [serverLog], Some(root));
      root.files := [Folder(folder)];
      zip := archive.value;
      current := root;
      Repr := {root, folder};
      new;
      assert FoldersIn([serverLog]) == {} by {
        assert [serverLog][1..] == [];
      }
      assert FoldersIn([Folder(folder)]) == {folder} by {
        assert [Folder(folder)][1..] == [];
      }
      assert FoldersOf(File(zip)) == {} by {
        assert zip.content[1..] == [];
      }
    }

    /** The session as it stands. */
    ghost function Snapshot(): (s: Session)
      reads this, Repr
      ensures s.current == current && s.tree.Keys == Repr
      ensures forall f :: f in Repr ==> s.tree[f] == f.files
    {
      Session(current, map f | f in Repr :: f.files)
    }

    /** One pass of the loop on the line `line`: the session before and
        after are related as `Executed` says for that line, and `exit`
        reports whether the line says `exit`. `made` is the folder an
        `extract` adds, if any. */
    method Execute(line: string) returns (exit: bool, ghost made: Option<VirtualFolder>)
      requires Valid()
      modifies this`current, this`Repr, current`files
      ensures Valid() && old(Repr) <= Repr && fresh(Repr - old(Repr))
      ensures exit <==> ActionOf(line) == Quit
      ensures Executed(zip, line, old(Snapshot()), made, Snapshot())
      ensures made.Some? ==> fresh(made.value)
    {
      exit, made := false, None;
      match ActionOf(line)
      case ChangeDir(dir) =>
        CdStaysEnclosed(Repr, current, dir);
        current := current.Cd(dir);
        MovedPointwise(old(Snapshot()), Snapshot(), current);
      case Download =>
        DownloadArchive();
      case Unpack(name) =>
        made := ExtractInCurrent(name);
      case Quit =>
        exit := true;
      case Skip =>
    }

    /** `wget` with the accepted address: the archive is appended to the
        current folder. */
    method DownloadArchive()
      requires Valid()
      modifies current`files
      ensures Valid() && current.files == old(current.files) + [File(zip)]
      ensures Updated(old(Snapshot()), Snapshot(), old(current.files) + [File(zip)])
    {
      ghost var oldFiles := current.files;
      assert ClosedIn(current, Repr);
      current.files := current.files + [File(zip)];
      AppendKeepsEnclosed(Repr, current, oldFiles, File(zip));
      UpdatedPointwise(old(Snapshot()), Snapshot(), oldFiles + [File(zip)]);
    }

    /** `extract`: an archive named `arg` in the current folder is unpacked
        into a new folder `made` appended to it; anything else changes
        nothing. */
    method ExtractInCurrent(arg: string) returns (made: Option<VirtualFolder>)
      requires Valid()
      modifies this`Repr, current`files
      ensures Valid() && old(Repr) <= Repr && fresh(Repr - old(Repr))
      ensures made.None? ==> Repr == old(Repr)
      ensures made.Some? ==> fresh(made.value) && Repr == old(Repr) + {made.value}
      ensures Extracted(old(Snapshot()), arg, made, Snapshot())
    {
      var d := current;
      ghost var oldFiles := d.files;
      assert ClosedIn(d, Repr);
      made := ExtractFileCommand(d, arg);
      if made.Some? {
        var g := made.value;
        assert arg != "." && arg != "..";
        ExtractKeepsEnclosed(Repr, d, oldFiles, arg, g);
        Repr := Repr + {g};
        ExtendedPointwise(old(Snapshot()), Snapshot(), g, g.files);
      } else {
        MovedPointwise(old(Snapshot()), Snapshot(), current);
      }
    }

    /** The loop over the lines typed: each line is executed until one says
        `exit`, and `n` lines are read. `trace` holds the session before
        the first line and after each line read, and `made` the folder
        each line adds. */
    method Run(lines: seq<string>) returns (n: nat, ghost trace: seq<Session>, ghost made: seq<Option<VirtualFolder>>)
      requires Valid()
      modifies this`current, this`Repr, Repr
      ensures Valid() && old(Repr) <= Repr
      ensures n <= |lines| && forall j :: 0 <= j < n - 1 ==> ActionOf(lines[j]) != Quit
      ensures n == |lines| || (n > 0 && ActionOf(lines[n - 1]) == Quit)
      ensures |trace| == n + 1 && |made| == n && trace[0] == old(Snapshot()) && trace[n] == Snapshot()
      ensures forall j :: 0 <= j < n ==> ExecutedAt(zip, lines, trace, made, j)
    {
      n, trace, made := 0, [Snapshot()], [];
      while n < |lines|
        invariant n <= |lines| && Valid()
        invariant old(Repr) <= Repr && fresh(Repr - old(Repr))
        invariant NoQuitBefore(lines, n)
        invariant |trace| == n + 1 && |made| == n && trace[0] == old(Snapshot()) && trace[n] == Snapshot()
        invariant forall j :: 0 <= j < n ==> ExecutedAt(zip, lines, trace, made, j)
      {
        ghost var before := Snapshot();
        var exit, m := Execute(lines[n]);
        ghost var after := Snapshot();
        assert Executed(zip, lines[n], before, m, after);
        TraceExtends(zip, lines, trace, made, n, after, m);
        trace, made := trace + [after], made + [m];
        if exit {
          assert NoQuitBefore(lines, n);
          n := n + 1;
          return;
        }
        NoQuitExtends(lines, n);
        n := n + 1;
      }
    }
  }
}
