/** The escape-room virtual file system (decrypt-escape-room-terminal/
    serverhack.py and terminal.py, whose folder and file classes agree
    except for `ls`): folders are objects whose list of entries the shells
    append to and sort in place; files never change once built, so they
    are values. */
module Vfs {
  import opened Wrappers

  /** The exceptions the shells catch and print. */
  datatype VfsError =
    | NotImplemented   // a method the base class leaves unimplemented
    | CrcError         // `VirtualFile.extract` on a file that is no archive
    | AttributeError   // a folder has no `size`

  /** An entry of a folder's list. */
  datatype Instance = Folder(folder: VirtualFolder) | File(file: VirtualFile)

  /** The file classes. The size of a zip archive is fixed when it is
      built (see `MakeZip`); the other sizes follow from the class. */
  datatype VirtualFile =
    | TextFile(name: string, text: string)
    | ZipFile(name: string, size: int, content: seq<Instance>)
    | PrintableFile(name: string)
    | ExecutableFile(name: string)

  function NameOf(i: Instance): string {
    match i
    case Folder(f) => f.name
    case File(f) => f.name
  }

  /** The `size` attribute of a file. */
  function Size(f: VirtualFile): int {
    match f
    case TextFile(_, text) => |text|
    case ZipFile(_, size, _) => size
    case PrintableFile(_) => 12241
    case ExecutableFile(_) => 256
  }

  /** Python's `int()` on a number: truncation toward zero. */
  function Trunc(x: real): int {
    if x >= 0.0 then x.Floor else -((-x).Floor)
  }

  /** The sum of the sizes of files. */
  function SumSizes(content: seq<Instance>): int
    requires forall k :: 0 <= k < |content| ==> content[k].File?
  {
    if content == [] then 0 else SumSizes(content[..|content| - 1]) + Size(content[|content| - 1].file)
  }

  /** `ZipFile(name, ratio, content)`: the size is the sum of the entries'
      sizes times `ratio`, plus 10, truncated; a folder among the entries
      has no size and raises. */
  function MakeZip(name: string, ratio: real, content: seq<Instance>): (r: Result<VirtualFile, VfsError>)
    ensures r.Err? <==> exists k :: 0 <= k < |content| && content[k].Folder?
    ensures r.Err? ==> r.error == AttributeError
    ensures r.Ok? ==> r.value.ZipFile? && r.value.name == name && r.value.content == content
  {
    if exists k :: 0 <= k < |content| && content[k].Folder? then Err(AttributeError)
    else Ok(ZipFile(name, Trunc((SumSizes(content) as real) * ratio + 10.0), content))
  }

  /** With a non-negative ratio and entries of non-negative size an archive
      is at least 10 bytes, and at most the scaled sum plus 10. */
  lemma ZipSizeBounds(name: string, ratio: real, content: seq<Instance>)
    requires ratio >= 0.0
    requires forall k :: 0 <= k < |content| ==> content[k].File? && Size(content[k].file) >= 0
    ensures MakeZip(name, ratio, content).Ok?
    ensures var z := MakeZip(name, ratio, content).value;
      10 <= Size(z) && (Size(z) as real) <= (SumSizes(content) as real) * ratio + 10.0
  {
    SumSizesNonNegative(content);
  }

  lemma {:induction false} SumSizesNonNegative(content: seq<Instance>)
    requires forall k :: 0 <= k < |content| ==> content[k].File? && Size(content[k].file) >= 0
    ensures SumSizes(content) >= 0
  {
    if content != [] {
      SumSizesNonNegative(content[..|content| - 1]);
    }
  }

  /** The characters `generateRandomString` draws from: upper case, digits,
      lower case and punctuation. */
  const Alphabet: string := "ABCDEFGHIJKLMNOPQRSTUVWXYZ0123456789abcdefghijklmnopqrstuvwxyz!\"#$%&'()*+,-./:;<=>?@[\\]^_`{|}~"

  /** `size` characters drawn from `Alphabet`; `choice(k)` is the random
      pick for the k-th character. A negative size draws nothing. */
  function RandomText(size: int, choice: nat -> nat): (r: string)
    ensures |r| == if size > 0 then size else 0
    ensures forall k :: 0 <= k < |r| ==> r[k] in Alphabet
  {
    if size <= 0 then ""
    else seq(size, k requires 0 <= k < size => Alphabet[choice(k) % |Alphabet|])
  }

  /** `read()`: a text file reads as its content, any other file as random
      characters, and a folder raises. */
  function Read(i: Instance, choice: nat -> nat): (r: Result<string, VfsError>)
    ensures r.Err? <==> i.Folder?
    ensures r.Err? ==> r.error == NotImplemented
    ensures i.File? && i.file.TextFile? ==> r == Ok(i.file.text)
  {
    match i
    case Folder(_) => Err(NotImplemented)
    case File(f) => if f.TextFile? then Ok(f.text) else Ok(RandomText(Size(f), choice))
  }

  /** Every file reads as many characters as its size says (none for a
      negative size), and a text file's size is its content's length. */
  lemma ReadLengthIsSize(f: VirtualFile, choice: nat -> nat)
    ensures Read(File(f), choice).Ok?
    ensures |Read(File(f), choice).value| == if Size(f) > 0 then Size(f) else 0
    ensures f.TextFile? ==> Size(f) == |f.text| && Read(File(f), choice).value == f.text
    ensures !f.TextFile? ==> forall k :: 0 <= k < |Read(File(f), choice).value| ==> Read(File(f), choice).value[k] in Alphabet
  {
  }

  /** Python's `name[:-4]`: the name without its last four characters, or
      empty when it is shorter. */
  function ExtractedName(name: string): (r: string)
    ensures |r| == if |name| >= 4 then |name| - 4 else 0
    ensures r <= name
  {
    if |name| >= 4 then name[..|name| - 4] else ""
  }

  /** The archive `base + ".zip"` extracts to a folder named `base`. */
  lemma ExtractedNameDropsExtension(base: string)
    ensures ExtractedName(base + ".zip") == base
  {
    assert (base + ".zip")[..|base|] == base;
  }

  /** Only a zip archive can be extracted. */
  predicate Extractable(i: Instance) {
    i.File? && i.file.ZipFile?
  }

  /** The first index in `files` at or after `k` whose entry is named
      `dir`. */
  function FindFrom(files: seq<Instance>, dir: string, k: nat): (r: Option<nat>)
    requires k <= |files|
    ensures r.Some? ==>
      (k <= r.value < |files| && NameOf(files[r.value]) == dir
       && forall j :: k <= j < r.value ==> NameOf(files[j]) != dir)
    ensures r.None? ==> forall j :: k <= j < |files| ==> NameOf(files[j]) != dir
    decreases |files| - k
  {
    if k == |files| then None
    else if NameOf(files[k]) == dir then Some(k)
    else FindFrom(files, dir, k + 1)
  }

  /** The first entry of `files` named `dir`, if any. */
  function Entry(files: seq<Instance>, dir: string): (r: Option<Instance>)
    ensures r.Some? <==> exists j :: 0 <= j < |files| && NameOf(files[j]) == dir
    ensures r.Some? ==>
      exists j :: (0 <= j < |files| && files[j] == r.value && NameOf(files[j]) == dir
                   && forall i :: 0 <= i < j ==> NameOf(files[i]) != dir)
  {
    match FindFrom(files, dir, 0)
    case None => None
    case Some(j) => Some(files[j])
  }

  lemma {:induction false} FindFromAppend(files: seq<Instance>, x: Instance, dir: string, k: nat)
    requires k <= |files|
    ensures FindFrom(files + [x], dir, k) ==
      if FindFrom(files, dir, k).Some? then FindFrom(files, dir, k)
      else if NameOf(x) == dir then Some(|files|) else None
    decreases |files| - k
  {
    var s := files + [x];
    if k == |files| {
      assert s[k] == x;
      if NameOf(x) != dir {
        assert FindFrom(s, dir, k + 1) == None;
      }
    } else {
      assert s[k] == files[k];
      FindFromAppend(files, x, dir, k + 1);
    }
  }

  /** Appending an entry never changes what an existing name resolves to,
      and a name not yet present resolves to the appended entry if it has
      that name. */
  lemma EntryAfterAppend(files: seq<Instance>, x: Instance, dir: string)
    ensures Entry(files + [x], dir) ==
      if Entry(files, dir).Some? then Entry(files, dir)
      else if NameOf(x) == dir then Some(x) else None
  {
    FindFromAppend(files, x, dir, 0);
    var s := files + [x];
    assert s[|files|] == x;
    if FindFrom(files, dir, 0).Some? {
      assert s[FindFrom(files, dir, 0).value] == files[FindFrom(files, dir, 0).value];
    }
  }

  /** The folders an entry holds: itself if it is a folder, and those in
      an archive's content. */
  ghost function FoldersOf(i: Instance): set<VirtualFolder>
    decreases i
  {
    match i
    case Folder(g) => {g}
    case File(f) => if f.ZipFile? then FoldersIn(f.content) else {}
  }

  /** The folders among the entries, including those inside archives. */
  ghost function FoldersIn(s: seq<Instance>): set<VirtualFolder>
    decreases s
  {
    if s == [] then {} else FoldersOf(s[0]) + FoldersIn(s[1..])
  }

  lemma {:induction false} FoldersInAppend(s: seq<Instance>, t: seq<Instance>)
    ensures FoldersIn(s + t) == FoldersIn(s) + FoldersIn(t)
    decreases s
  {
    if s == [] {
      assert s + t == t;
    } else {
      assert (s + t)[0] == s[0] && (s + t)[1..] == s[1..] + t;
      FoldersInAppend(s[1..], t);
    }
  }

  /** A list's folders are the union of its entries' folders. */
  lemma {:induction false} FoldersInMember(s: seq<Instance>, g: VirtualFolder)
    ensures g in FoldersIn(s) <==> exists k :: 0 <= k < |s| && g in FoldersOf(s[k])
    decreases s
  {
    if s != [] {
      FoldersInMember(s[1..], g);
      assert forall k :: 1 <= k < |s| ==> s[k] == s[1..][k - 1];
      if g in FoldersIn(s[1..]) {
        var k :| 0 <= k < |s[1..]| && g in FoldersOf(s[1..][k]);
        assert g in FoldersOf(s[k + 1]);
      }
    }
  }

  /** Entries with the same elements hold the same folders. */
  lemma FoldersInOfPermutation(s: seq<Instance>, t: seq<Instance>)
    requires multiset(s) == multiset(t)
    ensures FoldersIn(s) == FoldersIn(t)
  {
    forall g | g in FoldersIn(s)
      ensures g in FoldersIn(t)
    {
      FoldersInMember(s, g);
      FoldersInMember(t, g);
      var k :| 0 <= k < |s| && g in FoldersOf(s[k]);
      assert s[k] in multiset(t);
      var k' :| 0 <= k' < |t| && t[k'] == s[k];
    }
    forall g | g in FoldersIn(t)
      ensures g in FoldersIn(s)
    {
      FoldersInMember(s, g);
      FoldersInMember(t, g);
      var k :| 0 <= k < |t| && g in FoldersOf(t[k]);
      assert t[k] in multiset(s);
      var k' :| 0 <= k' < |s| && s[k'] == t[k];
    }
  }

  /** An entry found by name, and the content of an archive entry, hold
      only folders the whole list holds. */
  lemma EntryFoldersInList(files: seq<Instance>, dir: string)
    requires Entry(files, dir).Some?
    ensures FoldersOf(Entry(files, dir).value) <= FoldersIn(files)
    ensures Entry(files, dir).value.Folder? ==> Entry(files, dir).value.folder in FoldersIn(files)
    ensures Extractable(Entry(files, dir).value) ==> FoldersIn(Entry(files, dir).value.file.content) <= FoldersIn(files)
  {
    var e := Entry(files, dir).value;
    var j :| 0 <= j < |files| && files[j] == e && NameOf(files[j]) == dir;
    forall g | g in FoldersOf(e)
      ensures g in FoldersIn(files)
    {
      FoldersInMember(files, g);
    }
  }

  // ---- Sorting for serverhack.py's `ls` ----

  /** Python's `a <= b` on strings: lexicographic by code point, a prefix
      first. */
  predicate LexLe(a: string, b: string) {
    a == [] || (b != [] && (a[0] < b[0] || (a[0] == b[0] && LexLe(a[1..], b[1..]))))
  }

  lemma {:induction false} LexLeRefl(a: string)
    ensures LexLe(a, a)
  {
    if a != [] {
      LexLeRefl(a[1..]);
    }
  }

  lemma {:induction false} LexLeTotal(a: string, b: string)
    ensures LexLe(a, b) || LexLe(b, a)
  {
    if a != [] && b != [] && a[0] == b[0] {
      LexLeTotal(a[1..], b[1..]);
    }
  }

  lemma {:induction false} LexLeTrans(a: string, b: string, c: string)
    requires LexLe(a, b) && LexLe(b, c)
    ensures LexLe(a, c)
  {
    if a != [] && b != [] && c != [] && a[0] == b[0] && b[0] == c[0] {
      LexLeTrans(a[1..], b[1..], c[1..]);
    }
  }

  lemma {:induction false} LexLeAntisym(a: string, b: string)
    requires LexLe(a, b) && LexLe(b, a)
    ensures a == b
  {
    if a != [] && b != [] {
      LexLeAntisym(a[1..], b[1..]);
      assert a == [a[0]] + a[1..] && b == [b[0]] + b[1..];
    }
  }

  /** The sort key of `ls`: "0" before a folder's name, "1" before a
      file's, so that folders come first. */
  function Key(i: Instance): string {
    (if i.Folder? then "0" else "1") + NameOf(i)
  }

  /** Inserts `x` before the first element whose key is not smaller. */
  function InsertByKey(x: Instance, t: seq<Instance>): seq<Instance> {
    if t == [] || LexLe(Key(x), Key(t[0])) then [x] + t
    else [t[0]] + InsertByKey(x, t[1..])
  }

  /** A stable sort by `Key`, which is what Python's `list.sort` with that
      key computes. */
  function SortByKey(s: seq<Instance>): seq<Instance> {
    if s == [] then [] else InsertByKey(s[0], SortByKey(s[1..]))
  }

  predicate KeySorted(s: seq<Instance>) {
    forall k :: 0 <= k < |s| - 1 ==> LexLe(Key(s[k]), Key(s[k + 1]))
  }

  /** The entries of `s` with key `key`, in order. */
  function WithKey(s: seq<Instance>, key: string): seq<Instance> {
    if s == [] then []
    else (if Key(s[0]) == key then [s[0]] else []) + WithKey(s[1..], key)
  }

  lemma {:induction false} InsertPermutes(x: Instance, t: seq<Instance>)
    ensures multiset(InsertByKey(x, t)) == multiset([x] + t)
  {
    if t != [] && !LexLe(Key(x), Key(t[0])) {
      InsertPermutes(x, t[1..]);
      assert t == [t[0]] + t[1..];
    }
  }

  lemma {:induction false} InsertKeepsSorted(x: Instance, t: seq<Instance>)
    requires KeySorted(t)
    ensures KeySorted(InsertByKey(x, t))
    ensures |InsertByKey(x, t)| == |t| + 1
    ensures InsertByKey(x, t)[0] == x || (t != [] && InsertByKey(x, t)[0] == t[0])
  {
    if t != [] && !LexLe(Key(x), Key(t[0])) {
      InsertKeepsSorted(x, t[1..]);
      var r := InsertByKey(x, t[1..]);
      LexLeTotal(Key(x), Key(t[0]));
      assert [t[0]] + r == InsertByKey(x, t);
      if r[0] == x {
        assert LexLe(Key(t[0]), Key(r[0]));
      } else {
        assert LexLe(Key(t[0]), Key(t[1]));
      }
    }
  }

  /** The entries an insertion passes over all have a smaller key, so none
      has the key of the inserted one. */
  lemma {:induction false} InsertIsStable(x: Instance, t: seq<Instance>, key: string)
    ensures WithKey(InsertByKey(x, t), key) ==
      (if Key(x) == key then [x] else []) + WithKey(t, key)
  {
    if t == [] || LexLe(Key(x), Key(t[0])) {
      WithKeyCons(x, t, key);
    } else {
      var y, rest := t[0], t[1..];
      var r := InsertByKey(x, rest);
      assert t == [y] + rest;
      assert InsertByKey(x, t) == [y] + r;
      InsertIsStable(x, rest, key);
      WithKeyCons(y, r, key);
      WithKeyCons(y, rest, key);
      if Key(x) != key {
        assert WithKey(r, key) == WithKey(rest, key);
      } else if Key(y) != key {
        assert WithKey(InsertByKey(x, t), key) == WithKey(r, key);
        assert WithKey(t, key) == WithKey(rest, key);
      } else {
        LexLeRefl(Key(x));
      }
    }
  }

  /** The entries with `key` of a list that starts with `y`. */
  lemma WithKeyCons(y: Instance, s: seq<Instance>, key: string)
    ensures WithKey([y] + s, key) == (if Key(y) == key then [y] else []) + WithKey(s, key)
  {
    assert ([y] + s)[1..] == s;
  }

  /** The sort reorders the entries into key order: it is a permutation,
      and each key's entries keep their original order (the sort is
      stable). */
  lemma {:induction false} SortByKeyCorrect(s: seq<Instance>)
    ensures multiset(SortByKey(s)) == multiset(s)
    ensures KeySorted(SortByKey(s))
    ensures forall key :: WithKey(SortByKey(s), key) == WithKey(s, key)
  {
    if s != [] {
      SortByKeyCorrect(s[1..]);
      InsertPermutes(s[0], SortByKey(s[1..]));
      assert s == [s[0]] + s[1..];
      InsertKeepsSorted(s[0], SortByKey(s[1..]));
      forall key
        ensures WithKey(SortByKey(s), key) == WithKey(s, key)
      {
        InsertIsStable(s[0], SortByKey(s[1..]), key);
      }
    }
  }

  /** Adjacent order gives order between any two positions. */
  lemma {:induction false} KeySortedAllPairs(s: seq<Instance>)
    requires KeySorted(s)
    ensures forall i, j :: 0 <= i < j < |s| ==> LexLe(Key(s[i]), Key(s[j]))
    decreases |s|
  {
    if |s| > 1 {
      var t := s[1..];
      assert KeySorted(t) by {
        forall k | 0 <= k < |t| - 1
          ensures LexLe(Key(t[k]), Key(t[k + 1]))
        {
          assert t[k] == s[k + 1] && t[k + 1] == s[k + 2];
        }
      }
      KeySortedAllPairs(t);
      forall i, j | 0 <= i < j < |s|
        ensures LexLe(Key(s[i]), Key(s[j]))
      {
        if i > 0 {
          assert s[i] == t[i - 1] && s[j] == t[j - 1];
        } else if j > 1 {
          assert s[1] == t[0] && s[j] == t[j - 1];
          LexLeTrans(Key(s[0]), Key(s[1]), Key(s[j]));
        }
      }
    }
  }

  /** serverhack.py's `ls` order: the listing is a permutation of the
      entries with every folder before every file, the folders ordered by
      name and the files ordered by name, and entries with the same key in
      their original order. */
  lemma LsOrder(s: seq<Instance>)
    ensures multiset(SortByKey(s)) == multiset(s)
    ensures var r := SortByKey(s);
      forall i, j :: 0 <= i < j < |r| && r[j].Folder? ==> r[i].Folder?
    ensures var r := SortByKey(s);
      forall i, j :: 0 <= i < j < |r| && r[i].Folder? == r[j].Folder? ==> LexLe(NameOf(r[i]), NameOf(r[j]))
    ensures forall key :: WithKey(SortByKey(s), key) == WithKey(s, key)
  {
    SortByKeyCorrect(s);
    var r := SortByKey(s);
    KeySortedAllPairs(r);
    forall i, j | 0 <= i < j < |r|
      ensures r[j].Folder? ==> r[i].Folder?
      ensures r[i].Folder? == r[j].Folder? ==> LexLe(NameOf(r[i]), NameOf(r[j]))
    {
      assert LexLe(Key(r[i]), Key(r[j]));
      assert Key(r[i])[1..] == NameOf(r[i]) && Key(r[j])[1..] == NameOf(r[j]);
    }
  }

  // ---- terminal.py's `ls` ----

  /** Python's `'\n'.join(names)`. */
  function JoinLines(names: seq<string>): string {
    if names == [] then ""
    else if |names| == 1 then names[0]
    else names[0] + "\n" + JoinLines(names[1..])
  }

  /** The length of the prefix of `s` before its first newline. */
  function LineLength(s: string): (n: nat)
    ensures n <= |s| && (forall i :: 0 <= i < n ==> s[i] != '\n')
    ensures n < |s| ==> s[n] == '\n'
  {
    if s == [] || s[0] == '\n' then 0 else 1 + LineLength(s[1..])
  }

  /** Python's `s.split('\n')`. */
  function SplitLines(s: string): (r: seq<string>)
    ensures |r| >= 1
    decreases |s|
  {
    var n := LineLength(s);
    if n == |s| then [s] else [s[..n]] + SplitLines(s[n + 1..])
  }

  lemma {:induction false} LineLengthOfExtension(s: string, t: string)
    requires '\n' !in s
    requires t == [] || t[0] == '\n'
    ensures LineLength(s + t) == |s|
  {
    if s != [] {
      assert (s + t)[1..] == s[1..] + t;
      LineLengthOfExtension(s[1..], t);
    }
  }

  /** Splitting the listing at newlines gives back the names, when there is
      at least one name and no name holds a newline. */
  lemma {:induction false} SplitJoinLines(names: seq<string>)
    requires |names| >= 1
    requires forall k :: 0 <= k < |names| ==> '\n' !in names[k]
    ensures SplitLines(JoinLines(names)) == names
  {
    var t := names[0];
    if |names| == 1 {
      LineLengthOfExtension(t, []);
      assert t + [] == t;
    } else {
      var rest := "\n" + JoinLines(names[1..]);
      LineLengthOfExtension(t, rest);
      var s := t + rest;
      assert s == JoinLines(names);
      assert s[..|t|] == t && s[|t| + 1..] == JoinLines(names[1..]);
      assert SplitLines(s) == [t] + SplitLines(JoinLines(names[1..]));
      SplitJoinLines(names[1..]);
      assert names == [t] + names[1..];
    }
  }

  function Names(files: seq<Instance>): (r: seq<string>)
    ensures |r| == |files| && forall k :: 0 <= k < |files| ==> r[k] == NameOf(files[k])
  {
    seq(|files|, k requires 0 <= k < |files| => NameOf(files[k]))
  }

  /** `get_file(dir)` of the folder `d` whose entries are `files`. */
  function EntryOf(d: VirtualFolder, files: seq<Instance>, dir: string): Option<Instance> {
    if dir == "." then Some(Folder(d))
    else if dir == ".." then Some(Folder(d.Parent()))
    else Entry(files, dir)
  }

  /** `cd(dir)` from the folder `d` whose entries are `files`. */
  function CdFrom(d: VirtualFolder, files: seq<Instance>, dir: string): VirtualFolder {
    match EntryOf(d, files, dir)
    case Some(Folder(f)) => f
    case _ => d
  }

  /** A folder: `parent` as given to the constructor; `None` makes the
      folder its own parent. */
  class VirtualFolder {
    const name: string
    const parentArg: Option<VirtualFolder>
    var files: seq<Instance>
    /** The number of ancestors. */
    ghost const depth: nat

    /** `self.parent`. */
    function Parent(): VirtualFolder {
      if parentArg.Some? then parentArg.value else this
    }

    /** `depth` counts the ancestors: each parent link leads one step
        closer to a folder that is its own parent. */
    ghost predicate Rooted()
      decreases depth
    {
      if parentArg.None? then depth == 0
      else parentArg.value.depth + 1 == depth && parentArg.value.Rooted()
    }

    constructor (name: string, files: seq<Instance>, parent: Option<VirtualFolder>)
      ensures this.name == name && this.files == files && parentArg == parent
      ensures depth == if parent.Some? then parent.value.depth + 1 else 0
      ensures Rooted() <==> parent.None? || parent.value.Rooted()
      ensures parent.None? ==> Parent() == this && Path() == ""
      ensures parent.Some? && parent.value.Rooted() ==>
        Parent() == parent.value && Path() == parent.value.Path() + "/" + name
    {
      this.name := name;
      this.files := files;
      this.parentArg := parent;
      this.depth := if parent.Some? then parent.value.depth + 1 else 0;
    }

    /** `path()`: empty at the root, else the parent's path, a slash and the
        name. */
    function Path(): string
      requires Rooted()
      decreases depth
    {
      if Parent() == this then "" else Parent().Path() + "/" + name
    }

    /** The folder and its ancestors below the root have names without a
        slash. */
    ghost predicate NamesSlashFree()
      requires Rooted()
      decreases depth
    {
      Parent() == this || ('/' !in name && Parent().NamesSlashFree())
    }

    /** `get_file(dir)`: "." is the folder itself, ".." its parent, and any
        other name the first entry with that name, or nothing. */
    function GetFile(dir: string): (r: Option<Instance>)
      reads this
      ensures dir == "." ==> r == Some(Folder(this))
      ensures dir == ".." ==> r == Some(Folder(Parent()))
      ensures dir != "." && dir != ".." ==> r == Entry(files, dir)
    {
      EntryOf(this, files, dir)
    }

    /** `cd(dir)`: the folder `get_file` finds, or this folder when it finds
        a file or nothing. */
    function Cd(dir: string): (r: VirtualFolder)
      reads this
      ensures GetFile(dir).Some? && GetFile(dir).value.Folder? ==> r == GetFile(dir).value.folder
      ensures !(GetFile(dir).Some? && GetFile(dir).value.Folder?) ==> r == this
    {
      CdFrom(this, files, dir)
    }

    /** terminal.py's `ls()`: the entries' names joined by newlines. */
    function Listing(): (r: string)
      reads this
      ensures |files| >= 1 && (forall k :: 0 <= k < |files| ==> '\n' !in NameOf(files[k])) ==>
        SplitLines(r) == Names(files)
      ensures files == [] ==> r == ""
    {
      var ns := Names(files);
      if |files| >= 1 && (forall k :: 0 <= k < |files| ==> '\n' !in NameOf(files[k])) then
        SplitJoinLines(ns);
        JoinLines(ns)
      else
        JoinLines(ns)
    }

    /** serverhack.py's `ls()`: sorts the entries in place by `Key` and
        returns them. */
    method Ls() returns (r: seq<Instance>)
      modifies this`files
      ensures files == SortByKey(old(files)) && r == files
    {
      files := SortByKey(files);
      r := files;
    }
  }

  /** The number of occurrences of `c` in `s`. */
  function Occurrences(c: char, s: string): nat {
    if s == [] then 0 else (if s[0] == c then 1 else 0) + Occurrences(c, s[1..])
  }

  lemma {:induction false} OccurrencesAppend(c: char, s: string, t: string)
    ensures Occurrences(c, s + t) == Occurrences(c, s) + Occurrences(c, t)
  {
    if s == [] {
      assert s + t == t;
    } else {
      assert (s + t)[1..] == s[1..] + t;
      OccurrencesAppend(c, s[1..], t);
    }
  }

  lemma {:induction false} NoOccurrences(c: char, s: string)
    requires c !in s
    ensures Occurrences(c, s) == 0
  {
    if s != [] {
      NoOccurrences(c, s[1..]);
    }
  }

  /** The path is empty exactly at the root. */
  lemma PathEmptyOnlyAtRoot(f: VirtualFolder)
    requires f.Rooted()
    ensures f.Path() == "" <==> f.Parent() == f
  {
    if f.Parent() != f {
      assert f.Path() == f.Parent().Path() + "/" + f.name;
      assert |f.Path()| > 0;
    }
  }

  /** With slash-free names, the path has one slash per ancestor. */
  lemma {:induction false} PathHasOneSlashPerAncestor(f: VirtualFolder)
    requires f.Rooted() && f.NamesSlashFree()
    ensures Occurrences('/', f.Path()) == f.depth
    decreases f.depth
  {
    if f.Parent() != f {
      var p := f.Parent();
      PathHasOneSlashPerAncestor(p);
      assert f.Path() == p.Path() + "/" + f.name;
      assert '/' !in f.name;
      OccurrencesAppend('/', p.Path() + "/", f.name);
      OccurrencesAppend('/', p.Path(), "/");
      NoOccurrences('/', f.name);
      assert Occurrences('/', "/") == 1 by {
        assert "/"[1..] == "";
      }
    }
  }

  /** `cd` stays put on ".", moves to the parent on "..", and otherwise
      never moves to a file or to a missing name. */
  lemma CdTargets(d: VirtualFolder, dir: string)
    ensures d.Cd(".") == d
    ensures d.Cd("..") == d.Parent()
    ensures d.Cd(dir) != d ==> d.GetFile(dir) == Some(Folder(d.Cd(dir)))
    ensures dir != "." && dir != ".." && d.Cd(dir) != d ==>
      exists j :: 0 <= j < |d.files| && d.files[j] == Folder(d.Cd(dir)) && NameOf(d.files[j]) == dir
  {
  }

  /** `extract(parent)`: an archive becomes a new folder named without its
      last four characters, holding the archive's entries, under `parent`;
      any other file raises a CRC error and a folder raises
      NotImplementedError. */
  method Extract(i: Instance, parent: VirtualFolder) returns (r: Result<VirtualFolder, VfsError>)
    ensures r.Ok? <==> Extractable(i)
    ensures i.Folder? ==> r == Err(NotImplemented)
    ensures i.File? && !i.file.ZipFile? ==> r == Err(CrcError)
    ensures r.Ok? ==>
      (fresh(r.value) && r.value.name == ExtractedName(i.file.name)
       && r.value.files == i.file.content && r.value.parentArg == Some(parent)
       && r.value.Parent() == parent && r.value.depth == parent.depth + 1)
  {
    match i
    case Folder(_) =>
      r := Err(NotImplemented);
    case File(f) =>
      if f.ZipFile? {
        var g := new VirtualFolder(ExtractedName(f.name), f.content, Some(parent));
        r := Ok(g);
      } else {
        r := Err(CrcError);
      }
  }

  /** The folders reachable from `repr` by parent links and entries stay
      in `repr`. */
  ghost predicate Enclosed(repr: set<VirtualFolder>)
    reads repr
  {
    forall f {:trigger ClosedIn(f, repr)} :: f in repr ==> ClosedIn(f, repr)
  }

  /** The parent of `f` and the folders among its entries are in `repr`. */
  ghost predicate ClosedIn(f: VirtualFolder, repr: set<VirtualFolder>)
    reads f
  {
    f.Parent() in repr && FoldersIn(f.files) <= repr
  }

  /** The `extract` command on the current folder `d`: the entry named
      `arg` is extracted and the new folder appended; a missing entry or a
      failed extraction leaves the entries as they were. */
  method ExtractFileCommand(d: VirtualFolder, arg: string) returns (made: Option<VirtualFolder>)
    modifies d`files
    ensures var e := old(d.GetFile(arg));
      made.Some? <==> e.Some? && Extractable(e.value)
    ensures made.None? ==> d.files == old(d.files)
    ensures made.Some? ==>
      (d.files == old(d.files) + [Folder(made.value)]
       && fresh(made.value) && made.value.name == ExtractedName(old(d.GetFile(arg)).value.file.name)
       && made.value.files == old(d.GetFile(arg)).value.file.content
       && made.value.Parent() == d && made.value.depth == d.depth + 1)
  {
    var file := d.GetFile(arg);
    made := None;
    if file.Some? {
      var extracted := Extract(file.value, d);
      if extracted.Ok? {
        d.files := d.files + [Folder(extracted.value)];
        made := Some(extracted.value);
      }
    }
  }

  /** Appending an entry whose folders are already in an enclosed set to
      one of its folders keeps the set enclosed. */
  lemma AppendKeepsEnclosed(repr: set<VirtualFolder>, d: VirtualFolder, oldFiles: seq<Instance>, x: Instance)
    requires d in repr
    requires forall f {:trigger ClosedIn(f, repr)} :: f in repr && f != d ==> ClosedIn(f, repr)
    requires d.Parent() in repr && FoldersIn(oldFiles) <= repr && FoldersOf(x) <= repr
    requires d.files == oldFiles + [x]
    ensures Enclosed(repr)
  {
    FoldersInAppend(oldFiles, [x]);
    assert FoldersIn([x]) == FoldersOf(x) by {
      assert [x][1..] == [];
    }
  }

  /** After an `extract` command on a folder of an enclosed set, the set
      with the new folder is enclosed again. */
  lemma ExtractKeepsEnclosed(repr: set<VirtualFolder>, d: VirtualFolder, oldFiles: seq<Instance>, arg: string, g: VirtualFolder)
    requires d in repr && g !in repr
    requires forall f {:trigger ClosedIn(f, repr)} :: f in repr && f != d ==> ClosedIn(f, repr)
    requires d.Parent() in repr && FoldersIn(oldFiles) <= repr
    requires Entry(oldFiles, arg).Some? && Extractable(Entry(oldFiles, arg).value)
    requires d.files == oldFiles + [Folder(g)] && g.files == Entry(oldFiles, arg).value.file.content && g.Parent() == d
    ensures Enclosed(repr + {g})
  {
    EntryFoldersInList(oldFiles, arg);
    forall f | f in repr + {g} && f != d
      ensures ClosedIn(f, repr + {g})
    {
      if f != g {
        assert ClosedIn(f, repr);
      }
    }
    AppendKeepsEnclosed(repr + {g}, d, oldFiles, Folder(g));
  }

  /** `cd` from a folder of an enclosed set stays in the set. */
  lemma CdStaysEnclosed(repr: set<VirtualFolder>, d: VirtualFolder, dir: string)
    requires Enclosed(repr) && d in repr
    ensures d.Cd(dir) in repr
  {
    assert ClosedIn(d, repr);
    if dir != "." && dir != ".." && Entry(d.files, dir).Some? {
      EntryFoldersInList(d.files, dir);
    }
  }

  /** Sorting one folder's entries keeps an enclosed set enclosed. */
  lemma SortKeepsEnclosed(repr: set<VirtualFolder>, d: VirtualFolder, oldFiles: seq<Instance>)
    requires d in repr
    requires forall f {:trigger ClosedIn(f, repr)} :: f in repr && f != d ==> ClosedIn(f, repr)
    requires d.Parent() in repr && FoldersIn(oldFiles) <= repr
    requires d.files == SortByKey(oldFiles)
    ensures Enclosed(repr)
  {
    SortByKeyCorrect(oldFiles);
    FoldersInOfPermutation(oldFiles, d.files);
  }

  /** A shell session at one moment: the current folder and the entries of
      every folder the session can reach. */
  datatype Session = Session(current: VirtualFolder, tree: map<VirtualFolder, seq<Instance>>)

  /** `b` is `a` with the current folder's entries replaced by `files`;
      every other folder keeps its entries. */
  ghost predicate Updated(a: Session, b: Session, files: seq<Instance>) {
    a.current in a.tree && b == Session(a.current, a.tree[a.current := files])
  }

  /** `b` is `a` with `to` as the current folder and every folder keeping
      its entries. */
  ghost predicate Moved(a: Session, b: Session, to: VirtualFolder) {
    b == Session(to, a.tree)
  }

  /** `extract name` on the session `a` gives `b`: an archive entry of the
      current folder is unpacked into the new folder `made`, appended to the
      current folder and holding the archive's entries; on any other entry,
      or none, nothing changes. */
  ghost predicate Extracted(a: Session, name: string, made: Option<VirtualFolder>, b: Session)
    requires a.current in a.tree
  {
    var e := EntryOf(a.current, a.tree[a.current], name);
    if e.Some? && Extractable(e.value) then
      made.Some? && made.value !in a.tree
      && made.value.name == ExtractedName(e.value.file.name) && made.value.Parent() == a.current
      && b == Session(a.current, a.tree[a.current := a.tree[a.current] + [Folder(made.value)]][made.value := e.value.file.content])
    else
      made.None? && b == a
  }

  /** Sessions that agree folder by folder are equal. */
  lemma MovedPointwise(a: Session, b: Session, to: VirtualFolder)
    requires b.current == to && b.tree.Keys == a.tree.Keys
    requires forall f :: f in a.tree ==> b.tree[f] == a.tree[f]
    ensures Moved(a, b, to)
  {
    assert b.tree == a.tree;
  }

  lemma UpdatedPointwise(a: Session, b: Session, files: seq<Instance>)
    requires b.current == a.current && b.tree.Keys == a.tree.Keys
    requires a.current in b.tree && b.tree[a.current] == files
    requires forall f :: f in a.tree && f != a.current ==> b.tree[f] == a.tree[f]
    ensures Updated(a, b, files)
  {
    assert b.tree == a.tree[a.current := files];
  }

  lemma ExtendedPointwise(a: Session, b: Session, made: VirtualFolder, content: seq<Instance>)
    requires a.current in a.tree && made !in a.tree
    requires b.current == a.current && b.tree.Keys == a.tree.Keys + {made}
    requires b.tree[a.current] == a.tree[a.current] + [Folder(made)] && b.tree[made] == content
    requires forall f :: f in a.tree && f != a.current ==> b.tree[f] == a.tree[f]
    ensures b == Session(a.current, a.tree[a.current := a.tree[a.current] + [Folder(made)]][made := content])
  {
    assert b.tree == a.tree[a.current := a.tree[a.current] + [Folder(made)]][made := content];
  }
}
