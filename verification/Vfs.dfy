/** kernel/fs/vfs.c: resolving a path to a vnode, and to the directory and name
    where it is or would be. */
module Vfs {

  type Vnode = nat

  datatype Option<T> = None | Some(value: T)

  datatype Errno = ENOENT | ENOTDIR | EINVAL | ENAMETOOLONG | Other(code: int)

  datatype Result<T> = Ok(value: T) | Err(error: Errno)

  /** The mounted tree and the device vnodes; `enters` is a directory whose lookup
      operation exists. */
  datatype Fs = Fs(root: Option<Vnode>, isDir: Vnode -> bool, enters: Vnode -> bool,
                   lookup: (Vnode, string) -> Result<Vnode>, tty: nat -> Vnode, hda: Option<Vnode>)

  const NAME_MAX := 255

  // ------------------------------------------------------------ path strings

  function StripFront(s: string): (r: string)
    ensures |r| <= |s| && (r != "" ==> r[0] != '/')
  {
    if s != "" && s[0] == '/' then StripFront(s[1..]) else s
  }

  /** Nothing but slashes is taken away. */
  lemma {:induction false} StripFrontIs(s: string)
    ensures exists n: nat :: n <= |s| && StripFront(s) == s[n..] && forall i :: 0 <= i < n ==> s[i] == '/'
    decreases |s|
  {
    if s != "" && s[0] == '/' {
      StripFrontIs(s[1..]);
      var n: nat :| n < |s| && StripFront(s[1..]) == s[1..][n..] && forall i :: 0 <= i < n ==> s[1..][i] == '/';
      assert s[1..][n..] == s[n + 1..];
    } else {
      assert s[0..] == s;
    }
  }

  function StripBack(s: string): (r: string)
    ensures |r| <= |s| && r == s[..|r|] && (r != "" ==> r[|r| - 1] != '/')
    ensures forall i :: |r| <= i < |s| ==> s[i] == '/'
  {
    if s != "" && s[|s| - 1] == '/' then StripBack(s[..|s| - 1]) else s
  }

  /** The position of the last slash, or -1. */
  function LastSlash(s: string): (k: int)
    ensures -1 <= k < |s| && (k >= 0 ==> s[k] == '/') && forall i :: k < i < |s| ==> s[i] != '/'
  {
    if s == "" then -1 else if s[|s| - 1] == '/' then |s| - 1 else LastSlash(s[..|s| - 1])
  }

  /** The length of the first component. */
  function CompLen(s: string): (n: nat)
    ensures n <= |s| && (n < |s| ==> s[n] == '/') && forall i :: 0 <= i < n ==> s[i] != '/'
  {
    if s == "" || s[0] == '/' then 0 else 1 + CompLen(s[1..])
  }

  /** The components of a path: what stands between slashes. */
  function Split(s: string): seq<string>
    decreases |s|
  {
    if s == "" then []
    else if s[0] == '/' then Split(s[1..])
    else [s[..CompLen(s)]] + Split(s[CompLen(s)..])
  }

  lemma CompLenIs(s: string, n: nat)
    requires n <= |s| && (n < |s| ==> s[n] == '/') && forall i :: 0 <= i < n ==> s[i] != '/'
    ensures CompLen(s) == n
  {
  }

  lemma {:induction false} SplitCat(a: string, b: string)
    requires a == "" || b == "" || b[0] == '/' || a[|a| - 1] == '/'
    ensures Split(a + b) == Split(a) + Split(b)
    decreases |a|
  {
    if a == "" {
      assert a + b == b;
    } else if b == "" {
      assert a + b == a;
    } else if a[0] == '/' {
      assert (a + b)[1..] == a[1..] + b;
      SplitCat(a[1..], b);
    } else {
      var n := CompLen(a);
      CompLenIs(a + b, n);
      assert (a + b)[..n] == a[..n] && (a + b)[n..] == a[n..] + b;
      SplitCat(a[n..], b);
    }
  }

  lemma {:induction false} SplitSlashes(s: string)
    requires forall i :: 0 <= i < |s| ==> s[i] == '/'
    ensures Split(s) == []
    decreases |s|
  {
    if s == "" {
    } else {
      SplitSlashes(s[1..]);
    }
  }

  lemma SplitName(s: string)
    requires s != "" && forall i :: 0 <= i < |s| ==> s[i] != '/'
    ensures Split(s) == [s]
  {
    CompLenIs(s, |s|);
    assert s[..|s|] == s && s[|s|..] == "";
  }

  lemma SplitFront(s: string)
    ensures Split(StripFront(s)) == Split(s)
  {
    if s == "" || s[0] != '/' {
    } else {
      SplitFront(s[1..]);
    }
  }

  lemma SplitBack(s: string)
    ensures Split(StripBack(s)) == Split(s)
  {
    var r := StripBack(s);
    SplitSlashes(s[|r|..]);
    assert s == r + s[|r|..];
    SplitCat(r, s[|r|..]);
  }

  // --------------------------------------------------------------- resolution

  /** The device vnodes that hang off no directory. */
  function Special(fs: Fs, s: string): Option<Vnode>
  {
    if |s| == 8 && s[..7] == "dev/tty" && '0' <= s[7] <= '3' then Some(fs.tty((s[7] as int) - ('0' as int)))
    else if s == "dev/hda" then fs.hda
    else None
  }

  function Enter(fs: Fs, v: Vnode, name: string): Result<Vnode>
  {
    if !fs.enters(v) then Err(ENOTDIR) else fs.lookup(v, name)
  }

  /** One component: too long, itself, or a lookup. */
  function Step(fs: Fs, v: Vnode, c: string): Result<Vnode>
  {
    if |c| > NAME_MAX then Err(ENAMETOOLONG) else if c == "." then Ok(v) else Enter(fs, v, c)
  }

  /** The meaning of a path: look up its components one after the other. */
  function Walk(fs: Fs, v: Vnode, comps: seq<string>): Result<Vnode>
    decreases |comps|
  {
    if comps == [] then Ok(v)
    else
      match Step(fs, v, comps[0])
      case Err(e) => Err(e)
      case Ok(w) => Walk(fs, w, comps[1..])
  }

  function EndsInSlash(s: string): bool
  {
    s != "" && s[|s| - 1] == '/'
  }

  function Checked(fs: Fs, slash: bool, r: Result<Vnode>): Result<Vnode>
  {
    if r.Ok? && slash && !fs.isDir(r.value) then Err(ENOTDIR) else r
  }

  function Resolve(fs: Fs, path: string): Result<Vnode>
  {
    if fs.root.None? then Err(ENOENT)
    else
      var s := StripFront(path);
      if s == "" then Ok(fs.root.value)
      else if Special(fs, s).Some? then Ok(Special(fs, s).value)
      else Checked(fs, EndsInSlash(path), Walk(fs, fs.root.value, Split(s)))
  }

  /** The last name of a string. */
  function LastName(e: string): (r: string)
    ensures LastSlash(e) < 0 ==> r == e
  {
    if LastSlash(e) < 0 then e else e[LastSlash(e) + 1..]
  }

  function Parent(fs: Fs, path: string): Result<(Vnode, string)>
  {
    if fs.root.None? then Err(ENOENT)
    else
      var e := StripBack(StripFront(path));
      var k := LastSlash(e);
      if e == "" then Err(EINVAL)
      else if k < 0 then (if |e| >= 256 then Err(ENAMETOOLONG) else Ok((fs.root.value, e)))
      else
        var name, dir := LastName(e), StripBack(e[..k]);
        if |name| == 0 || |name| >= 256 then Err(EINVAL)
        else if dir == "" then Ok((fs.root.value, name))
        else if |dir| >= 256 then Err(ENAMETOOLONG)
        else
          match Resolve(fs, dir)
          case Err(x) => Err(x)
          case Ok(v) => if fs.isDir(v) then Ok((v, name)) else Err(ENOTDIR)
  }

  /** The directory part of a path that has one. */
  function DirPart(path: string): string
  {
    var e := StripBack(StripFront(path));
    var k := LastSlash(e);
    if k < 0 then "" else StripBack(e[..k])
  }

  // ------------------------------------------------------------------ laws

  lemma {:induction false} WalkCat(fs: Fs, v: Vnode, a: seq<string>, b: seq<string>)
    ensures Walk(fs, v, a + b) == match Walk(fs, v, a) { case Err(e) => Err(e) case Ok(w) => Walk(fs, w, b) }
    decreases |a|
  {
    if a == [] {
      assert a + b == b;
    } else {
      assert (a + b)[0] == a[0] && (a + b)[1..] == a[1..] + b;
      if Step(fs, v, a[0]).Ok? { WalkCat(fs, Step(fs, v, a[0]).value, a[1..], b); }
    }
  }

  /** The components without ".". */
  function NoDots(comps: seq<string>): seq<string>
  {
    if comps == [] then [] else (if comps[0] == "." then [] else [comps[0]]) + NoDots(comps[1..])
  }

  lemma {:induction false} WalkNoDots(fs: Fs, v: Vnode, comps: seq<string>)
    ensures Walk(fs, v, NoDots(comps)) == Walk(fs, v, comps)
    decreases |comps|
  {
    if comps == [] {
    } else {
      var rest := NoDots(comps[1..]);
      if comps[0] == "." {
        assert [] + rest == rest;
        WalkNoDots(fs, v, comps[1..]);
      } else {
        assert ([comps[0]] + rest)[1..] == rest;
        if Step(fs, v, comps[0]).Ok? { WalkNoDots(fs, Step(fs, v, comps[0]).value, comps[1..]); }
      }
    }
  }

  /** The device that the raw string names, if any. */
  function Device(fs: Fs, path: string): Option<Vnode>
  {
    Special(fs, StripFront(path))
  }

  /** The trailing-slash check applies. */
  predicate MustBeDir(path: string)
  {
    EndsInSlash(path) && StripFront(path) != ""
  }

  /** A path means the device it names, or else the walk over its components without
      ".", with the trailing-slash check. */
  lemma Meaning(fs: Fs, path: string)
    requires fs.root.Some?
    ensures Resolve(fs, path) ==
              if Device(fs, path).Some? then Ok(Device(fs, path).value)
              else Checked(fs, MustBeDir(path), Walk(fs, fs.root.value, NoDots(Split(path))))
  {
    SplitFront(path);
    WalkNoDots(fs, fs.root.value, Split(path));
    hide Split, Walk, NoDots;
    if StripFront(path) == "" {
      SplitSlashes("");
      WalkNone(fs, fs.root.value);
    }
  }

  /** Paths that differ only in slashes and "." components resolve alike exactly when
      neither or both name a device and the trailing-slash check makes no difference,
      or one names a device and the walk leads to that same vnode. */
  lemma SlashesAndDots(fs: Fs, p: string, q: string)
    requires fs.root.Some? && NoDots(Split(p)) == NoDots(Split(q))
    ensures var walk := Walk(fs, fs.root.value, NoDots(Split(p)));
            var d, e := Device(fs, p), Device(fs, q);
            Resolve(fs, p) == Resolve(fs, q) <==>
              if d.Some? && e.Some? then true
              else if d.Some? then Checked(fs, MustBeDir(q), walk) == Ok(d.value)
              else if e.Some? then Checked(fs, MustBeDir(p), walk) == Ok(e.value)
              else MustBeDir(p) == MustBeDir(q) || walk.Err? || fs.isDir(walk.value)
  {
    hide Resolve, Split, Walk, NoDots, Device, MustBeDir;
    Meaning(fs, p);
    Meaning(fs, q);
    if Device(fs, p).Some? && Device(fs, q).Some? {
      SameDevice(fs, p, q);
    }
  }

  /** The two components of a device name. */
  lemma DeviceSplit(fs: Fs, s: string)
    requires Special(fs, s).Some?
    ensures 4 < |s| && s[..4] == "dev/" && NoDots(Split(s)) == ["dev", s[4..]]
  {
    hide Split, NoDots, StripFront, StripBack, CompLen, Walk, Step;
    DeviceString(fs, s);
    hide Special;
    var rest := s[4..];
    SplitAtSlash(s, 3);
    assert s[..3] == "dev" by { assert s[..3] == s[..4][..3]; }
    SplitName("dev");
    SplitName(rest);
    assert ["dev"] + [rest] == ["dev", rest];
    TwoNames("dev", rest);
  }

  lemma DeviceString(fs: Fs, s: string)
    requires Special(fs, s).Some?
    ensures 4 < |s| && s[..4] == "dev/" && s[3] == '/' && s[4..] != "." && forall i :: 4 <= i < |s| ==> s[i] != '/'
  {
    hide Split, NoDots, StripFront, StripBack, CompLen, Walk, Step;
    var head := if |s| == 8 then s[..7] else s;
    assert head == "dev/tty" || head == "dev/hda";
    assert s[..4] == head[..4];
    assert forall i :: 0 <= i < 7 ==> s[i] == head[i];
  }

  lemma TwoNames(a: string, b: string)
    requires a != "." && b != "."
    ensures NoDots([a, b]) == [a, b]
  {
    assert [a, b][1..] == [b] && [b][1..] == [];
    assert NoDots([b]) == [b];
  }

  lemma SameDevice(fs: Fs, p: string, q: string)
    requires NoDots(Split(p)) == NoDots(Split(q)) && Device(fs, p).Some? && Device(fs, q).Some?
    ensures Device(fs, p) == Device(fs, q)
  {
    hide Split, NoDots, Special;
    var s, t := StripFront(p), StripFront(q);
    DeviceSplit(fs, s);
    DeviceSplit(fs, t);
    SplitFront(p);
    SplitFront(q);
    assert ["dev", s[4..]][1] == ["dev", t[4..]][1];
    assert s == s[..4] + s[4..] && t == t[..4] + t[4..];
  }

  lemma {:induction false} NoDotsCat(a: seq<string>, b: seq<string>)
    ensures NoDots(a + b) == NoDots(a) + NoDots(b)
    decreases |a|
  {
    if a == [] {
      assert a + b == b;
    } else {
      assert (a + b)[0] == a[0] && (a + b)[1..] == a[1..] + b;
      NoDotsCat(a[1..], b);
    }
  }

  /** Doubling an interior slash, or putting "/." before it, is such a difference. */
  lemma ExtraSlashOrDot(a: string, b: string)
    ensures Split(a + "//" + b) == Split(a + "/" + b)
    ensures NoDots(Split(a + "/./" + b)) == NoDots(Split(a + "/" + b))
  {
    hide Split, NoDots;
    assert a + "//" + b == a + ("//" + b) && a + "/" + b == a + ("/" + b) && a + "/./" + b == a + ("/./" + b);
    SplitCat(a, "//" + b);
    SplitCat(a, "/" + b);
    SplitCat(a, "/./" + b);
    SplitCat("//", b);
    SplitCat("/", b);
    SplitCat("/./", b);
    Literals();
    NoDotsCat(Split(a), ["."] + Split(b));
    NoDotsCat(["."], Split(b));
    NoDotsCat(Split(a), Split(b));
    assert [] + NoDots(Split(b)) == NoDots(Split(b)) && [] + Split(b) == Split(b);
  }

  lemma Literals()
    ensures Split("//") == [] && Split("/") == [] && Split("/./") == ["."] && NoDots(["."]) == []
  {
    assert "//"[1..] == "/" && "/"[1..] == "";
    assert "/./"[1..] == "./";
    CompLenIs("./", 1);
    assert "./"[..1] == "." && "./"[1..] == "/";
    assert NoDots(["."]) == [] + NoDots(["."][1..]);
  }

  /** A doubled slash makes a device name a path like any other. */
  lemma DeviceSlash(fs: Fs)
    requires fs.root.Some?
    ensures Resolve(fs, "dev/tty0") == Ok(fs.tty(0))
    ensures Resolve(fs, "dev//tty0") == Walk(fs, fs.root.value, ["dev", "tty0"])
  {
    hide Split, StripFront, StripBack, CompLen, Walk, NoDots, Resolve, Special, Step;
    TtyNames(fs);
    Unslashed("dev/tty0");
    Unslashed("dev//tty0");
    Meaning(fs, "dev/tty0");
    Meaning(fs, "dev//tty0");
  }

  lemma TtyNames(fs: Fs)
    ensures Special(fs, "dev/tty0") == Some(fs.tty(0)) && Special(fs, "dev//tty0") == None
    ensures NoDots(Split("dev//tty0")) == ["dev", "tty0"]
  {
    hide Split, StripFront, StripBack, CompLen, Walk, NoDots;
    assert "dev/tty0"[..7] == "dev/tty" && |"dev//tty0"| == 9;
    DeviceSplit(fs, "dev/tty0");
    hide Special;
    assert "dev/tty0"[4..] == "tty0";
    ExtraSlashOrDot("dev", "tty0");
    assert "dev" + "//" + "tty0" == "dev//tty0" && "dev" + "/" + "tty0" == "dev/tty0";
  }

  /** On a file system whose directories are empty the two are different things. */
  lemma DeviceSlashDiffers()
    ensures var fs := Fs(Some(0), v => true, v => true, (v, name) => Err(ENOENT), n => 7, None);
            Resolve(fs, "dev/tty0") == Ok(7) && Resolve(fs, "dev//tty0") == Err(ENOENT)
  {
    hide Split, StripFront, StripBack, CompLen, Walk, NoDots, Resolve, Special;
    var fs := Fs(Some(0), v => true, v => true, (v, name) => Err(ENOENT), n => 7, None);
    DeviceSlash(fs);
    WalkFails(fs, 0, ["dev", "tty0"], ENOENT);
  }

  lemma WalkFails(fs: Fs, v: Vnode, comps: seq<string>, e: Errno)
    requires comps != [] && Step(fs, v, comps[0]) == Err(e)
    ensures Walk(fs, v, comps) == Err(e)
  {
  }

  lemma SplitAtSlash(e: string, k: nat)
    requires k < |e| && e[k] == '/'
    ensures Split(e) == Split(e[..k]) + Split(e[k + 1..])
  {
    hide Split;
    assert e == e[..k + 1] + e[k + 1..] && e[..k + 1] == e[..k] + "/";
    SplitCat(e[..k + 1], e[k + 1..]);
    SplitCat(e[..k], "/");
    Literals();
    assert Split(e[..k]) + [] == Split(e[..k]);
  }

  lemma NameNotEmpty(e: string)
    requires e != "" && e[|e| - 1] != '/'
    ensures LastName(e) != "" && forall i :: 0 <= i < |LastName(e)| ==> LastName(e)[i] != '/'
  {
    hide LastSlash;
  }

  lemma LastSplit(e: string)
    requires e != "" && e[|e| - 1] != '/'
    ensures var k := LastSlash(e); Split(e) == (if k < 0 then [] else Split(e[..k])) + [LastName(e)]
  {
    NameNotEmpty(e);
    SplitName(LastName(e));
    hide Split, LastSlash;
    var k := LastSlash(e);
    if k >= 0 { SplitAtSlash(e, k); }
  }

  lemma SameComponents(path: string)
    ensures Split(StripBack(StripFront(path))) == Split(path)
  {
    SplitFront(path);
    SplitBack(StripFront(path));
    hide *;
  }

  /** A resolved parent splits the path: its directory part and its last name. */
  lemma ParentSplits(path: string)
    requires StripBack(StripFront(path)) != ""
    ensures var name := LastName(StripBack(StripFront(path)));
            Split(path) == Split(DirPart(path)) + [name] && name != ""
  {
    var e := StripBack(StripFront(path));
    var k := LastSlash(e);
    SameComponents(path);
    NameNotEmpty(e);
    LastSplit(e);
    hide Split, StripFront, StripBack, LastSlash, LastName;
    if k >= 0 { SplitBack(e[..k]); } else { SplitSlashes(""); }
  }

  /** The two resolvers agree: where resolve_parent finds directory `d` and a name
      other than ".", resolve_path finds what looking that name up in `d` gives,
      subject to the trailing-slash check. */
  lemma Agreement(fs: Fs, path: string)
    requires Parent(fs, path).Ok? && Parent(fs, path).value.1 != "."
    requires Special(fs, StripFront(path)).None? && Special(fs, StripFront(DirPart(path))).None?
    ensures var (d, name) := Parent(fs, path).value;
            Resolve(fs, path) == Checked(fs, EndsInSlash(path), Enter(fs, d, name))
  {
    hide Split, StripFront, Walk, Special, Parent, Resolve, DirPart, Step;
    var (d, name) := Parent(fs, path).value;
    var dir := DirPart(path);
    ParentFacts(fs, path);
    ResolveFacts(fs, path);
    WalkCat(fs, fs.root.value, Split(dir), [name]);
    WalkOne(fs, d, name);
    StepName(fs, d, name);
    if dir == "" {
      SplitSlashes(dir);
      WalkNone(fs, fs.root.value);
    } else {
      ResolveDir(fs, path);
    }
  }

  lemma StepName(fs: Fs, d: Vnode, name: string)
    requires |name| <= NAME_MAX && name != "."
    ensures Step(fs, d, name) == Enter(fs, d, name)
  {
  }

  lemma ParentFacts(fs: Fs, path: string)
    requires Parent(fs, path).Ok?
    ensures var (d, name) := Parent(fs, path).value;
            && fs.root.Some? && StripFront(path) != "" && |name| <= NAME_MAX
            && Split(path) == Split(DirPart(path)) + [name]
            && if DirPart(path) == "" then d == fs.root.value else Resolve(fs, DirPart(path)) == Ok(d)
  {
    hide Split, StripFront, StripBack, LastSlash, Resolve;
    var e := StripBack(StripFront(path));
    assert e != "";
    ParentSplits(path);
  }

  lemma ResolveFacts(fs: Fs, path: string)
    requires fs.root.Some? && StripFront(path) != "" && Special(fs, StripFront(path)).None?
    ensures Resolve(fs, path) == Checked(fs, EndsInSlash(path), Walk(fs, fs.root.value, Split(path)))
  {
    hide Split, StripFront, Walk, Special, Checked;
    SplitFront(path);
  }

  lemma WalkOne(fs: Fs, v: Vnode, c: string)
    ensures Walk(fs, v, [c]) == Step(fs, v, c)
  {
    assert [c][1..] == [];
  }

  lemma WalkNone(fs: Fs, v: Vnode)
    ensures Walk(fs, v, []) == Ok(v)
  {
  }

  /** The directory part ends in no slash and begins with none, so resolving it is
      walking it. */
  lemma ResolveDir(fs: Fs, path: string)
    requires fs.root.Some? && DirPart(path) != "" && Special(fs, StripFront(DirPart(path))).None?
    ensures Resolve(fs, DirPart(path)) == Walk(fs, fs.root.value, Split(DirPart(path)))
  {
    hide Split, StripFront, StripBack, LastSlash, Walk, Special;
    var dir := DirPart(path);
    assert dir[|dir| - 1] != '/' && !EndsInSlash(dir);
    assert dir[0] == StripFront(path)[0] != '/';
    Unslashed(dir);
    ResolveFacts(fs, dir);
  }

  lemma Unslashed(s: string)
    requires s != "" && s[0] != '/'
    ensures StripFront(s) == s
  {
  }

  // ------------------------------------------------- chains of lookups

  /** `vs` starts with the root and follows the first |vs| - 1 components: each is at
      most 255 long, "." stays where it is, any other is looked up in a vnode that can
      be entered. */
  ghost predicate Chain(fs: Fs, v: Vnode, comps: seq<string>, vs: seq<Vnode>)
  {
    1 <= |vs| <= |comps| + 1 && vs[0] == v && forall i :: 0 <= i < |vs| - 1 ==> Leads(fs, vs[i], comps[i], vs[i + 1])
  }

  ghost predicate Leads(fs: Fs, v: Vnode, c: string, w: Vnode)
  {
    |c| <= 255 && if c == "." then w == v else fs.enters(v) && fs.lookup(v, c) == Ok(w)
  }

  /** Component `c` cannot be followed from `v`, for reason `e`. */
  ghost predicate Stops(fs: Fs, v: Vnode, c: string, e: Errno)
  {
    if |c| > 255 then e == ENAMETOOLONG
    else c != "." && if !fs.enters(v) then e == ENOTDIR else fs.lookup(v, c) == Err(e)
  }

  /** A chain through all the components ends at `w`. */
  ghost predicate LeadsTo(fs: Fs, v: Vnode, comps: seq<string>, w: Vnode)
  {
    exists vs :: Chain(fs, v, comps, vs) && |vs| == |comps| + 1 && vs[|comps|] == w
  }

  /** A chain stops before some component, for reason `e`. */
  ghost predicate StopsWith(fs: Fs, v: Vnode, comps: seq<string>, e: Errno)
  {
    exists vs :: Chain(fs, v, comps, vs) && |vs| <= |comps| && Stops(fs, vs[|vs| - 1], comps[|vs| - 1], e)
  }

  lemma StepMeans(fs: Fs, v: Vnode, c: string)
    ensures forall w: Vnode :: Step(fs, v, c) == Ok(w) <==> Leads(fs, v, c, w)
    ensures forall e :: Step(fs, v, c) == Err(e) <==> Stops(fs, v, c, e)
  {
  }

  lemma ChainMore(fs: Fs, v: Vnode, comps: seq<string>, vs: seq<Vnode>)
    requires comps != [] && vs != [] && Leads(fs, v, comps[0], vs[0]) && Chain(fs, vs[0], comps[1..], vs)
    ensures Chain(fs, v, comps, [v] + vs)
  {
    hide Leads;
    var more := [v] + vs;
    forall i | 0 <= i < |more| - 1 ensures Leads(fs, more[i], comps[i], more[i + 1]) {
      if i > 0 { assert Leads(fs, vs[i - 1], comps[1..][i - 1], vs[i]); }
    }
  }

  lemma ChainRest(fs: Fs, v: Vnode, comps: seq<string>, vs: seq<Vnode>)
    requires comps != [] && |vs| >= 2 && Chain(fs, v, comps, vs)
    ensures Leads(fs, v, comps[0], vs[1]) && Chain(fs, vs[1], comps[1..], vs[1..])
  {
    hide Leads;
    forall i | 0 <= i < |vs| - 2 ensures Leads(fs, vs[1..][i], comps[1..][i], vs[1..][i + 1]) {
      assert Leads(fs, vs[i + 1], comps[i + 1], vs[i + 2]);
    }
  }

  /** The walk succeeds exactly along a chain through all the components. */
  lemma {:induction false} WalkOk(fs: Fs, v: Vnode, comps: seq<string>, w: Vnode)
    ensures Walk(fs, v, comps) == Ok(w) <==> LeadsTo(fs, v, comps, w)
    decreases |comps|
  {
    hide Leads, Stops, Step;
    if comps == [] {
      assert Chain(fs, v, comps, [v]);
    } else {
      StepMeans(fs, v, comps[0]);
      if Walk(fs, v, comps) == Ok(w) {
        var u := Step(fs, v, comps[0]).value;
        WalkOk(fs, u, comps[1..], w);
        var vs :| Chain(fs, u, comps[1..], vs) && |vs| == |comps| && vs[|comps| - 1] == w;
        ChainMore(fs, v, comps, vs);
      }
      if vs :| Chain(fs, v, comps, vs) && |vs| == |comps| + 1 && vs[|comps|] == w {
        ChainRest(fs, v, comps, vs);
        WalkOk(fs, vs[1], comps[1..], w);
      }
    }
  }

  /** ... and fails exactly where a chain stops. */
  lemma {:induction false} WalkErr(fs: Fs, v: Vnode, comps: seq<string>, e: Errno)
    ensures Walk(fs, v, comps) == Err(e) <==> StopsWith(fs, v, comps, e)
    decreases |comps|
  {
    hide Leads, Stops, Step, StopsWith;
    if comps == [] {
      assert !StopsWith(fs, v, comps, e) by { NoStop(fs, v, comps, e); }
    } else {
      StepMeans(fs, v, comps[0]);
      StopsHere(fs, v, comps, e);
      if Step(fs, v, comps[0]).Ok? { WalkErr(fs, Step(fs, v, comps[0]).value, comps[1..], e); }
    }
  }

  lemma NoStop(fs: Fs, v: Vnode, comps: seq<string>, e: Errno)
    requires comps == []
    ensures !StopsWith(fs, v, comps, e)
  {
  }

  /** A chain stops at the first component, or takes it and stops later. */
  lemma StopsHere(fs: Fs, v: Vnode, comps: seq<string>, e: Errno)
    requires comps != []
    ensures StopsWith(fs, v, comps, e) <==>
              || Stops(fs, v, comps[0], e)
              || exists u: Vnode :: Leads(fs, v, comps[0], u) && StopsWith(fs, u, comps[1..], e)
  {
    hide Leads, Stops;
    if Stops(fs, v, comps[0], e) { assert Chain(fs, v, comps, [v]); }
    if u: Vnode :| Leads(fs, v, comps[0], u) && StopsWith(fs, u, comps[1..], e) { StopsLater(fs, v, comps, e, u); }
    if vs :| Chain(fs, v, comps, vs) && |vs| <= |comps| && Stops(fs, vs[|vs| - 1], comps[|vs| - 1], e) {
      if |vs| >= 2 {
        ChainRest(fs, v, comps, vs);
        assert vs[1..][|vs| - 2] == vs[|vs| - 1] && comps[1..][|vs| - 2] == comps[|vs| - 1];
      }
    }
  }

  lemma StopsLater(fs: Fs, v: Vnode, comps: seq<string>, e: Errno, u: Vnode)
    requires comps != [] && Leads(fs, v, comps[0], u) && StopsWith(fs, u, comps[1..], e)
    ensures StopsWith(fs, v, comps, e)
  {
    hide Leads, Stops;
    var vs :| Chain(fs, u, comps[1..], vs) && |vs| < |comps| && Stops(fs, vs[|vs| - 1], comps[1..][|vs| - 1], e);
    ChainMore(fs, v, comps, vs);
    assert ([v] + vs)[|vs|] == vs[|vs| - 1];
  }

  /** A trailing slash behind at least one component. */
  predicate AsksDir(path: string)
  {
    path != "" && path[|path| - 1] == '/' && Split(path) != []
  }

  lemma PlainPath(fs: Fs, path: string)
    requires fs.root.Some? && Device(fs, path).None?
    ensures Resolve(fs, path) == Checked(fs, AsksDir(path), Walk(fs, fs.root.value, Split(path)))
  {
    Meaning(fs, path);
    WalkNoDots(fs, fs.root.value, Split(path));
    SplitEmpty(path);
    hide Split, Walk, NoDots, Resolve, StripFront, Device;
  }

  /** What a path that names no device resolves to: the end of a chain through all its
      components, which is a directory if the path ends in a slash. */
  lemma ResolvesTo(fs: Fs, path: string, w: Vnode)
    requires fs.root.Some? && Device(fs, path).None?
    ensures Resolve(fs, path) == Ok(w) <==>
              LeadsTo(fs, fs.root.value, Split(path), w) && (AsksDir(path) ==> fs.isDir(w))
  {
    hide Split, Walk, LeadsTo, Resolve, Device, AsksDir;
    PlainPath(fs, path);
    WalkOk(fs, fs.root.value, Split(path), w);
  }

  /** It fails with the error of the first component that cannot be followed, or with
      ENOTDIR where a trailing slash follows something else than a directory. */
  lemma ResolveFails(fs: Fs, path: string, e: Errno)
    requires fs.root.Some? && Device(fs, path).None?
    ensures Resolve(fs, path) == Err(e) <==>
              || StopsWith(fs, fs.root.value, Split(path), e)
              || (e == ENOTDIR && AsksDir(path)
                  && exists w: Vnode :: LeadsTo(fs, fs.root.value, Split(path), w) && !fs.isDir(w))
  {
    hide Split, Walk, LeadsTo, StopsWith, Resolve, Device, AsksDir;
    PlainPath(fs, path);
    WalkErr(fs, fs.root.value, Split(path), e);
    forall w: Vnode { WalkOk(fs, fs.root.value, Split(path), w); }
  }

  lemma SplitEmpty(path: string)
    ensures Split(path) == [] <==> StripFront(path) == ""
  {
    SplitFront(path);
  }

  /** The five device names. */
  lemma DeviceNames(fs: Fs, s: string)
    ensures Special(fs, s) ==
              if s == "dev/tty0" then Some(fs.tty(0))
              else if s == "dev/tty1" then Some(fs.tty(1))
              else if s == "dev/tty2" then Some(fs.tty(2))
              else if s == "dev/tty3" then Some(fs.tty(3))
              else if s == "dev/hda" then fs.hda
              else None
  {
    if |s| == 8 && s[..7] == "dev/tty" {
      assert s == s[..7] + [s[7]];
    }
  }

  /** The pieces that resolve_parent cuts a path into are its last component and a path
      of the components before it. */
  lemma ParentPieces(path: string)
    ensures var comps, e := Split(path), StripBack(StripFront(path));
            && (e == "" <==> comps == [])
            && (e != "" ==> LastName(e) == comps[|comps| - 1] && Split(DirPart(path)) == comps[..|comps| - 1]
                            && (LastSlash(e) < 0 <==> |comps| == 1) && (LastSlash(e) >= 0 ==> DirPart(path) != ""))
  {
    var e, dir := StripBack(StripFront(path)), DirPart(path);
    SplitEmpty(path);
    if e == "" {
      AllSlashes(StripFront(path));
    } else {
      ParentSplits(path);
      DirEmpty(path);
      hide Split, StripFront, StripBack, LastName, DirPart, LastSlash;
      SplitEmpty(dir);
      SplitSlashes("");
    }
  }

  lemma DirEmpty(path: string)
    requires StripBack(StripFront(path)) != ""
    ensures if LastSlash(StripBack(StripFront(path))) < 0 then DirPart(path) == ""
            else DirPart(path) != "" && StripFront(DirPart(path)) != ""
  {
    if LastSlash(StripBack(StripFront(path))) >= 0 {
      FirstOfDir(path);
      Unslashed(DirPart(path));
    }
  }

  lemma AllSlashes(s: string)
    requires StripBack(s) == "" && (s != "" ==> s[0] != '/')
    ensures s == ""
  {
  }

  lemma FirstOfDir(path: string)
    requires StripBack(StripFront(path)) != "" && LastSlash(StripBack(StripFront(path))) >= 0
    ensures DirPart(path) != "" && DirPart(path)[0] != '/'
  {
    hide StripBack, LastSlash, StripFront;
    var e := StripBack(StripFront(path));
    var k := LastSlash(e);
    assert e[0] == StripFront(path)[0] && e[k] == '/';
    assert k > 0 && e[..k][0] != '/';
    NotAllSlashes(e[..k]);
  }

  lemma NotAllSlashes(s: string)
    requires s != "" && s[0] != '/'
    ensures StripBack(s) != "" && StripBack(s)[0] == s[0]
  {
  }

  /** What resolve_parent answers, by the number of components. */
  lemma ParentMeans(fs: Fs, path: string)
    requires fs.root.Some?
    ensures var comps := Split(path);
            Parent(fs, path) ==
              if comps == [] then Err(EINVAL)
              else
                var name := comps[|comps| - 1];
                if |comps| == 1 then (if |name| > 255 then Err(ENAMETOOLONG) else Ok((fs.root.value, name)))
                else if |name| > 255 then Err(EINVAL)
                else if |DirPart(path)| > 255 then Err(ENAMETOOLONG)
                else
                  match Resolve(fs, DirPart(path))
                  case Err(x) => Err(x)
                  case Ok(v) => if fs.isDir(v) then Ok((v, name)) else Err(ENOTDIR)
    ensures Split(path) != [] ==> Split(DirPart(path)) == Split(path)[..|Split(path)| - 1]
  {
    ParentPieces(path);
    hide Split, StripFront, StripBack, LastSlash, Resolve, LastName;
    var e := StripBack(StripFront(path));
    if e != "" { NameNotEmpty(e); }
  }

  // ------------------------------------------------------------- the resolvers

  method SkipSlashes(path: string, from: nat) returns (i: nat)
    requires from <= |path|
    ensures from <= i <= |path| && path[i..] == StripFront(path[from..])
  {
    hide StripFront;
    i := from;
    while i < |path| && path[i] == '/'
      invariant from <= i <= |path| && StripFront(path[i..]) == StripFront(path[from..])
    {
      StripSlash(path[i..]);
      assert path[i..][1..] == path[i + 1..];
      i := i + 1;
    }
    if i < |path| { Unslashed(path[i..]); }
  }

  lemma StripSlash(s: string)
    requires s != "" && s[0] == '/'
    ensures StripFront(s) == StripFront(s[1..])
  {
  }

  /** The end of the component that starts at `from`, unless it is too long. */
  method ScanComponent(path: string, from: nat) returns (i: nat, tooLong: bool)
    requires from < |path| && path[from] != '/'
    ensures tooLong <==> CompLen(path[from..]) > NAME_MAX
    ensures !tooLong ==> i == from + CompLen(path[from..]) <= |path|
  {
    i := from;
    while i < |path| && path[i] != '/'
      invariant from <= i <= |path| && i - from <= NAME_MAX && forall j :: from <= j < i ==> path[j] != '/'
    {
      if i - from >= NAME_MAX {
        LongComp(path[from..], NAME_MAX + 1);
        return i, true;
      }
      i := i + 1;
    }
    CompLenIs(path[from..], i - from);
    return i, false;
  }

  lemma LongComp(s: string, n: nat)
    requires n <= |s| && forall i :: 0 <= i < n ==> s[i] != '/'
    ensures CompLen(s) >= n
  {
  }

  /** vfs_resolve_path. */
  method ResolvePath(fs: Fs, path: string) returns (r: Result<Vnode>)
    ensures r == Resolve(fs, path)
  {
    hide Split, StripFront, Walk, CompLen;
    if fs.root.None? { return Err(ENOENT); }
    var trailingSlash := |path| > 0 && path[|path| - 1] == '/';
    assert path[0..] == path;
    var start := SkipSlashes(path, 0);
    if start == |path| { return Ok(fs.root.value); }
    var special := Special(fs, path[start..]);
    if special.Some? { return Ok(special.value); }
    var walked := WalkPath(fs, path, start);
    if walked.Ok? && trailingSlash && !fs.isDir(walked.value) { return Err(ENOTDIR); }
    return walked;
  }

  /** The loop over the components. */
  method WalkPath(fs: Fs, path: string, start: nat) returns (r: Result<Vnode>)
    requires fs.root.Some? && start < |path| && path[start] != '/'
    ensures r == Walk(fs, fs.root.value, Split(path[start..]))
  {
    hide Split, StripFront, Walk, CompLen;
    var curr, p := fs.root.value, start;
    ghost var meaning := Walk(fs, curr, Split(path[p..]));
    while p < |path|
      invariant start <= p <= |path| && (p < |path| ==> path[p] != '/')
      invariant Walk(fs, curr, Split(path[p..])) == meaning
    {
      FirstComponent(fs, curr, path[p..]);
      var end, tooLong := ScanComponent(path, p);
      if tooLong { return Err(ENAMETOOLONG); }
      var comp := path[p..end];
      assert path[p..][..end - p] == comp && path[p..][end - p..] == path[end..];
      SplitFront(path[end..]);
      p := SkipSlashes(path, end);
      if comp != "." {
        if !fs.enters(curr) { return Err(ENOTDIR); }
        var found := fs.lookup(curr, comp);
        if found.Err? { return found; }
        curr := found.value;
      }
    }
    assert path[p..] == "";
    SplitSlashes("");
    WalkNone(fs, curr);
    return Ok(curr);
  }

  lemma FirstComponent(fs: Fs, v: Vnode, s: string)
    requires s != "" && s[0] != '/'
    ensures var c, rest := s[..CompLen(s)], Split(s[CompLen(s)..]);
            Walk(fs, v, Split(s)) == match Step(fs, v, c) { case Err(e) => Err(e) case Ok(w) => Walk(fs, w, rest) }
  {
    var c, rest := s[..CompLen(s)], Split(s[CompLen(s)..]);
    assert ([c] + rest)[0] == c && ([c] + rest)[1..] == rest;
  }

  /** The length without trailing slashes. */
  method TrimmedLength(s: string) returns (end: nat)
    ensures end <= |s| && s[..end] == StripBack(s)
  {
    end := |s|;
    assert s[..end] == s;
    while end > 0 && s[end - 1] == '/'
      invariant 0 <= end <= |s| && StripBack(s[..end]) == StripBack(s)
    {
      assert s[..end][..end - 1] == s[..end - 1];
      end := end - 1;
    }
  }

  method FindLastSlash(s: string) returns (k: int)
    ensures k == LastSlash(s)
  {
    k := -1;
    var i := |s| - 1;
    while i >= 0
      invariant -1 <= i < |s| && k == -1 && forall j :: i < j < |s| ==> s[j] != '/'
    {
      if s[i] == '/' { k := i; break; }
      i := i - 1;
    }
  }

  /** vfs_resolve_parent. */
  method ResolveParent(fs: Fs, path: string) returns (r: Result<(Vnode, string)>)
    ensures r == Parent(fs, path)
  {
    hide StripFront, StripBack, LastSlash, Resolve;
    if fs.root.None? { return Err(ENOENT); }
    var root := fs.root.value;
    assert path[0..] == path;
    var start := SkipSlashes(path, 0);
    var s := path[start..];
    var end := TrimmedLength(s);
    if s == "" || end == 0 { return Err(EINVAL); }
    var e := s[..end];
    var lastSlash := FindLastSlash(e);
    if lastSlash < 0 {
      if end >= 256 { return Err(ENAMETOOLONG); }
      return Ok((root, e));
    }
    var name := e[lastSlash + 1..];
    if |name| == 0 || |name| >= 256 { return Err(EINVAL); }
    var dirLen := TrimmedLength(e[..lastSlash]);
    var dir := e[..lastSlash][..dirLen];
    if dirLen == 0 { return Ok((root, name)); }
    if dirLen >= 256 { return Err(ENAMETOOLONG); }
    var found := ResolvePath(fs, dir);
    if found.Err? { return Err(found.error); }
    if !fs.isDir(found.value) { return Err(ENOTDIR); }
    return Ok((found.value, name));
  }
}
