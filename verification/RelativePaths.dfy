/** path_normalize on relative paths: what it makes of any current directory a chdir can leave. */
module RelativePaths {
  import opened Options
  import opened PathNormalize

  // ------------------------------------------------------------------ the outcome

  /** The components read before the buffer is full. */
  function Read(path: string, cwd: string, n: nat): (r: seq<string>)
    ensures r <= Comps(path)
  {
    Comps(path)[..Stop(Comps(path), n - |cwd| - 1)]
  }

  /** The output below the stack: the directory and a slash, cut once for each climb above it. */
  function Base(path: string, cwd: string, n: nat): string {
    CutTimes(cwd + "/", Unders([], Read(path, cwd, n)))
  }

  /**
   * Relative paths, every outcome, from any directory: an error when the directory or the components read do not fit,
   * and otherwise the components evaluated on top of what the climbs left of the directory's text.
   */
  lemma RelativeOutcome(path: string, cwd: string, n: nat)
    requires !Absolute(path)
    ensures var read, room := Read(path, cwd, n), n - |cwd| - 1;
            && Normalize(path, cwd, n)
               == (if room <= 0 || Cost(read) >= room then None
                   else Some(Finish(Base(path, cwd, n) + Render(Eval([], read)))))
            && (room >= 1 && |read| < |Comps(path)| ==> Cost(read) >= room - 1)
            && (Cost(Comps(path)) <= room - 2 ==> read == Comps(path) && Normalize(path, cwd, n).Some?)
  {
    hide Comps, Eval, Render, Clean, Loop, Stop, Cost, Name, CutTimes, Unders;
    var cs, room := Comps(path), n - |cwd| - 1;
    if room >= 1 {
      CompsAreNames(path);
      EmptyStack();
      LoopEvaluates(cwd + "/", [], cs, room);
      StopsInTime(cs, room);
      assert cwd + "/" + "" == cwd + "/" && cs[..|cs|] == cs;
    }
  }

  // ------------------------------------------------------------------ cutting

  /** Text that is empty or starts with a slash. */
  predicate Slashed(x: string) {
    x == "" || x[0] == '/'
  }

  /** A cut takes at most one component, and none from text that ends in a slash. */
  lemma CutComps(x: string)
    requires Slashed(x)
    ensures var y := Cut(x);
            && Slashed(y) && |y| <= |x| && Comps(y) <= Comps(x) && |Comps(x)| <= |Comps(y)| + 1
  {
    hide Comps;
    if |x| > 1 {
      var j := LastSlash(x, |x| - 1);
      var tail, name := x[j..], x[j + 1..];
      assert x == x[..j] + tail && tail == "/" + name;
      assert '/' !in name by { forall i | 0 <= i < |name| ensures name[i] != '/' { assert name[i] == x[j + 1 + i]; } }
      CompsJoin(x[..j], tail);
      if name == "" {
        assert tail == "/" && Comps(x[..j]) + [] == Comps(x[..j]);
        SlashAlone();
      } else {
        CompsOfName(name);
      }
    }
  }

  lemma SlashAlone()
    ensures Comps("/") == []
  {
    assert "/"[1..] == "";
  }

  lemma {:induction false} CutTimesComps(x: string, u: nat)
    requires Slashed(x)
    ensures var y := CutTimes(x, u);
            && Slashed(y) && |y| <= |x| && Comps(y) <= Comps(x) && |Comps(x)| <= |Comps(y)| + u
    decreases u
  {
    hide Comps, Cut;
    if u > 0 {
      CutComps(x);
      CutTimesComps(Cut(x), u - 1);
    }
  }

  // ------------------------------------------------------------------ directories

  /** What vfs_chdir can leave as the current directory. */
  predicate Directory(cwd: string) {
    Absolute(cwd) && Clean(Comps(cwd))
  }

  /** The directory the system starts in. */
  lemma RootDirectory()
    ensures Directory("/")
  {
    SlashAlone();
  }

  lemma CompsWithSlash(x: string)
    ensures Comps(x + "/") == Comps(x)
  {
    hide Comps;
    CompsJoin(x, "/");
    SlashAlone();
    assert Comps(x) + [] == Comps(x);
  }

  lemma CompsOnTop(x: string, st: seq<string>)
    requires Clean(st)
    ensures Comps(x + Render(st)) == Comps(x) + st
  {
    hide Comps;
    CleanStack(st);
    CompsRender(st);
    RenderStarts(st);
    CompsJoin(x, Render(st));
  }

  lemma RenderStarts(st: seq<string>)
    ensures Slashed(Render(st)) && (Render(st) == "" <==> st == [])
  {
    RenderAbsolute(st);
  }

  lemma FinishComps(x: string)
    ensures Comps(Finish(x)) == Comps(x)
  {
    SlashAlone();
  }

  /** The components of a relative output: some of the directory's, then the stack. */
  lemma BaseComps(path: string, cwd: string, n: nat)
    requires Directory(cwd)
    ensures var b, t := Base(path, cwd, n), Eval([], Read(path, cwd, n));
            && Slashed(b) && |b| <= |cwd| + 1 && Comps(b) <= Comps(cwd) && Clean(t)
            && Comps(Finish(b + Render(t))) == Comps(b) + t
            && |Comps(cwd)| <= |Comps(b)| + Unders([], Read(path, cwd, n))
  {
    hide Comps, CutTimes, Eval, Render, Cut, Clean;
    var b, read := Base(path, cwd, n), Read(path, cwd, n);
    CompsWithSlash(cwd);
    CutTimesComps(cwd + "/", Unders([], read));
    CompsAreNames(path);
    EmptyStack();
    EvalClean([], read);
    CompsOnTop(b, Eval([], read));
    FinishComps(b + Render(Eval([], read)));
  }

  lemma CleanJoin(a: seq<string>, w: seq<string>, t: seq<string>)
    requires Clean(w) && a <= w && Clean(t)
    ensures Clean(a + t)
  {}

  /** chdir, along absolute or relative paths, only ever leaves directories. */
  lemma DirectoryKept(path: string, cwd: string, n: nat)
    requires Directory(cwd) && n >= 2 && Normalize(path, cwd, n).Some?
    ensures Directory(Normalize(path, cwd, n).value)
  {
    hide Comps, Eval, Render, Clean, Normalize, Base, Read, Cost;
    if Absolute(path) {
      OutputClean(path, cwd, n);
    } else {
      var b, t := Base(path, cwd, n), Eval([], Read(path, cwd, n));
      RelativeOutcome(path, cwd, n);
      BaseComps(path, cwd, n);
      CleanJoin(Comps(b), Comps(cwd), t);
      RenderStarts(t);
    }
  }

  const PATH_MAX: nat := 256

  /** The current directory after vfs_chdir along the paths, those that fail left out. */
  function ChangeDirectory(cwd: string, paths: seq<string>): string
    decreases |paths|
  {
    if paths == [] then cwd
    else
      var r := Normalize(paths[0], cwd, PATH_MAX);
      ChangeDirectory(if r.Some? then r.value else cwd, paths[1..])
  }

  lemma {:induction false} ChangesKeep(cwd: string, paths: seq<string>)
    requires Directory(cwd)
    ensures Directory(ChangeDirectory(cwd, paths))
    decreases |paths|
  {
    hide Directory, Normalize;
    if paths != [] {
      var r := Normalize(paths[0], cwd, PATH_MAX);
      if r.Some? { DirectoryKept(paths[0], cwd, PATH_MAX); }
      ChangesKeep(if r.Some? then r.value else cwd, paths[1..]);
    }
  }

  /** Every sequence of changes of directory, from the start, leaves a directory. */
  lemma EveryDirectory(paths: seq<string>)
    ensures Directory(ChangeDirectory("/", paths))
  {
    hide Directory;
    RootDirectory();
    ChangesKeep("/", paths);
  }

  // ------------------------------------------------------------------ how far the climbs get

  function Slashes(s: string): nat {
    if s == "" then 0 else (if s[0] == '/' then 1 else 0) + Slashes(s[1..])
  }

  function Rep(k: nat): (s: string)
    ensures |s| == k && forall i :: 0 <= i < k ==> s[i] == '/'
  {
    seq(k, _ => '/')
  }

  /** How many slashes lead. */
  function Lead(x: string): (l: nat)
    ensures l <= |x| && (forall i :: 0 <= i < l ==> x[i] == '/') && (l < |x| ==> x[l] != '/')
  {
    if x == "" || x[0] != '/' then 0 else 1 + Lead(x[1..])
  }

  /** What follows them. */
  function Bare(x: string): string {
    x[Lead(x)..]
  }

  lemma {:induction false} SlashesJoin(a: string, b: string)
    ensures Slashes(a + b) == Slashes(a) + Slashes(b)
  {
    if a == "" {
      assert a + b == b;
    } else {
      assert (a + b)[1..] == a[1..] + b;
      SlashesJoin(a[1..], b);
    }
  }

  lemma {:induction false} NoSlashes(s: string)
    ensures Slashes(s) == 0 <==> '/' !in s
  {
    if s != "" {
      assert s == [s[0]] + s[1..];
      NoSlashes(s[1..]);
    }
  }

  lemma OneSlash(name: string)
    requires '/' !in name
    ensures Slashes("/" + name) == 1
  {
    NoSlashes(name);
    assert ("/" + name)[1..] == name;
  }

  /** The text before the last slash, and after it. */
  lemma {:induction false} SplitLast(y: string) returns (y': string, name: string)
    requires Slashes(y) > 0
    ensures y == y' + "/" + name && '/' !in name && Slashes(y') == Slashes(y) - 1
  {
    var init, c := y[..|y| - 1], y[|y| - 1];
    assert y == init + [c];
    SlashesJoin(init, [c]);
    assert [c][1..] == "";
    if c == '/' {
      y', name := init, "";
    } else {
      y', name := SplitLast(init);
      name := name + [c];
    }
  }

  /** The backward scan stops at the last slash. */
  lemma CutAt(x: string, name: string)
    requires '/' !in name && x != ""
    ensures Cut(x + "/" + name) == x
  {
    var out := x + "/" + name;
    forall i | |x| < i <= |out| - 1 ensures out[i] != '/' { assert out[i] == name[i - |x| - 1]; }
    ScanStops(out, |out| - 1, |x|);
    assert out[..|x|] == x;
  }

  /** A cut inside the bare part removes one slash and what follows it. */
  lemma CutInside(l: nat, y: string) returns (y': string)
    requires y != "" && y[0] != '/' && Slashes(y) > 0
    ensures y' != "" && y'[0] != '/' && Slashes(y') == Slashes(y) - 1 && Cut(Rep(l) + y) == Rep(l) + y'
  {
    hide Slashes, Cut;
    var name;
    y', name := SplitLast(y);
    assert y' != "" && y'[0] == y[0];
    CutAt(Rep(l) + y', name);
    assert Rep(l) + y == Rep(l) + y' + "/" + name;
  }

  /** A cut of the last bare component takes one of the leading slashes along. */
  lemma CutLast(l: nat, y: string)
    requires l >= 1 && y != "" && y[0] != '/' && Slashes(y) == 0
    ensures Cut(Rep(l) + y) == Rep(l - 1)
  {
    NoSlashes(y);
    var x := Rep(l) + y;
    forall i | l - 1 < i <= |x| - 1 ensures x[i] != '/' { assert x[i] == y[i - l]; }
    ScanStops(x, |x| - 1, l - 1);
    assert x[..l - 1] == Rep(l - 1);
  }

  /** Slashes left after v cuts of k of them: the last one stays. */
  function Left(k: nat, v: nat): nat {
    if k <= 1 then k else if v >= k - 1 then 1 else k - v
  }

  lemma {:induction false} CutSlashes(k: nat, v: nat)
    ensures CutTimes(Rep(k), v) == Rep(Left(k, v))
    decreases v
  {
    if v > 0 {
      var x := Rep(k);
      if k > 1 {
        ScanStops(x, k - 1, k - 1);
        assert x[..k - 1] == Rep(k - 1);
        CutSlashes(k - 1, v - 1);
      } else {
        CutSlashes(k, v - 1);
      }
    }
  }

  /** u cuts of leading slashes and a bare part. */
  lemma {:induction false} CutDown(l: nat, y: string, u: nat) returns (y': string)
    requires l >= 1 && y != "" && y[0] != '/'
    ensures u > Slashes(y) ==> CutTimes(Rep(l) + y, u) == Rep(Left(l - 1, u - Slashes(y) - 1))
    ensures u <= Slashes(y) ==> CutTimes(Rep(l) + y, u) == Rep(l) + y' && y' != "" && y'[0] != '/'
    decreases u
  {
    hide Cut, Rep;
    y' := y;
    if u > 0 {
      if Slashes(y) == 0 {
        CutLast(l, y);
        CutSlashes(l - 1, u - 1);
      } else {
        var z := CutInside(l, y);
        y' := CutDown(l, z, u - 1);
      }
    }
  }

  // ------------------------------------------------------------------ where the path ends

  /** The directory's text after u climbs. */
  lemma CutDirectory(cwd: string, u: nat) returns (y: string)
    requires Absolute(cwd)
    ensures var l, bare := Lead(cwd), Bare(cwd);
            && l >= 1
            && CutTimes(cwd + "/", u)
               == (if bare == "" then Rep(Left(l + 1, u))
                   else if u > Slashes(bare) + 1 then Rep(Left(l - 1, u - Slashes(bare) - 2))
                   else Rep(l) + y)
            && (bare != "" && u <= Slashes(bare) + 1 ==> y != "" && y[0] != '/')
  {
    hide CutTimes, Slashes, Left;
    y := "";
    var l, bare := Lead(cwd), Bare(cwd);
    assert cwd[..l] == Rep(l) && cwd == Rep(l) + bare;
    if bare == "" {
      assert cwd + "/" == Rep(l + 1);
      CutSlashes(l + 1, u);
    } else {
      OneSlash("");
      assert "/" + "" == "/";
      SlashesJoin(bare, "/");
      assert cwd + "/" == Rep(l) + (bare + "/");
      y := CutDown(l, bare + "/", u);
    }
  }

  lemma {:induction false} CompsRep(k: nat)
    ensures Comps(Rep(k)) == []
  {
    if k > 0 {
      CompsRep(k - 1);
      assert Rep(k)[1..] == Rep(k - 1);
    }
  }

  lemma {:induction false} CompsBare(l: nat, y: string)
    requires y != "" && y[0] != '/'
    ensures Comps(Rep(l) + y) != []
  {
    if l > 0 {
      CompsBare(l - 1, y);
      assert (Rep(l) + y)[1..] == Rep(l - 1) + y;
    } else {
      assert Rep(l) + y == y;
    }
  }

  /** The climbs have used up the whole directory. */
  predicate ClimbedAway(cwd: string, u: nat) {
    Bare(cwd) == "" || u > 1 + Slashes(Bare(cwd))
  }

  lemma NothingLeft(cwd: string, u: nat)
    requires Absolute(cwd)
    ensures Comps(CutTimes(cwd + "/", u)) == [] <==> ClimbedAway(cwd, u)
  {
    hide Comps, CutTimes, Slashes, Left, Rep;
    var y := CutDirectory(cwd, u);
    var l, bare := Lead(cwd), Bare(cwd);
    if bare == "" {
      CompsRep(Left(l + 1, u));
    } else if u > Slashes(bare) + 1 {
      CompsRep(Left(l - 1, u - Slashes(bare) - 2));
    } else {
      CompsBare(l, y);
    }
  }

  /** The first climb above the directory only removes the slash that was added to it. */
  lemma FirstClimb(cwd: string, u: nat)
    requires Absolute(cwd) && u > 0
    ensures |Comps(cwd)| <= |Comps(CutTimes(cwd + "/", u))| + u - 1
  {
    hide Comps;
    CutSlash(cwd);
    CutTimesComps(cwd, u - 1);
  }

  /** Evaluating on top of w loses one component of w for each `..` that finds the rest empty. */
  lemma {:induction false} EvalOver(w: seq<string>, st: seq<string>, cs: seq<string>)
    ensures var u := Unders(st, cs); Eval(w + st, cs) == w[..if u <= |w| then |w| - u else 0] + Eval(st, cs)
    decreases |cs|
  {
    if cs == [] {
      assert w[..|w|] == w;
    } else {
      var c, cs' := cs[0], cs[1..];
      if c == ".." && st == [] {
        assert w + st == w;
        EvalOver(Apply(w, c), [], cs');
        assert Apply(w, c) + [] == Apply(w, c);
      } else {
        assert Apply(w + st, c) == w + Apply(st, c);
        EvalOver(w, Apply(st, c), cs');
      }
    }
  }

  /** What a relative path ought to mean. */
  lemma RelativeMeaning(cwd: string, path: string)
    requires Directory(cwd)
    ensures Comps(Meaning(cwd + "/" + path)) == Eval(Comps(cwd), Comps(path))
    ensures Meaning(cwd + "/" + path) == Finish(Render(Eval(Comps(cwd), Comps(path))))
  {
    hide Comps, Eval, Render, Clean;
    var w := Comps(cwd);
    MeaningIsClean(cwd + "/" + path);
    CompsOfJoined(cwd, path);
    SlashSkipped(path);
    EvalJoin([], w, Comps(path));
    EvalPushes([], w);
    assert [] + w == w;
  }

  lemma SlashSkipped(path: string)
    ensures Comps("/" + path) == Comps(path)
  {
    assert ("/" + path)[1..] == path;
  }

  lemma CutList(w: seq<string>, b: seq<string>, t: seq<string>, u: nat)
    requires b <= w && (if u == 0 then b == w else |w| <= |b| + u - 1)
    ensures b + t == w[..if u <= |w| then |w| - u else 0] + t <==> u == 0 || b == []
  {
    var k := if u <= |w| then |w| - u else 0;
    assert w[..|w|] == w && w[..0] == [];
    if |b| != k { assert |b + t| != |w[..k] + t|; }
  }

  /**
   * A relative path ends where it should exactly when no `..` climbs above the directory or the climbs use all of it
   * up: otherwise it ends too low, because climbing first undoes the slashes that normalization put there.
   */
  lemma RelativePlace(path: string, cwd: string, n: nat)
    requires Directory(cwd) && !Absolute(path) && Normalize(path, cwd, n).Some?
    ensures var read, r := Read(path, cwd, n), Normalize(path, cwd, n).value;
            Comps(r) == Eval(Comps(cwd), read) <==> Unders([], read) == 0 || ClimbedAway(cwd, Unders([], read))
    ensures Comps(Meaning(cwd + "/" + path)) == Eval(Comps(cwd), Comps(path))
    ensures Cost(Comps(path)) + |cwd| + 3 <= n ==> Read(path, cwd, n) == Comps(path)
  {
    hide Comps, Eval, Render, Clean, Normalize, Read, Cost, CutTimes, Unders, Meaning, ClimbedAway, Finish;
    var read, b := Read(path, cwd, n), Base(path, cwd, n);
    var u, w, t := Unders([], read), Comps(cwd), Eval([], read);
    RelativeMeaning(cwd, path);
    RelativeOutcome(path, cwd, n);
    BaseComps(path, cwd, n);
    EvalOver(w, [], read);
    assert w + [] == w;
    if u == 0 {
      NoCut(cwd + "/");
      CompsWithSlash(cwd);
    } else {
      FirstClimb(cwd, u);
    }
    CutList(w, Comps(b), t, u);
    NothingLeft(cwd, u);
  }

  lemma NoCut(x: string)
    ensures CutTimes(x, 0) == x
  {}

  // ------------------------------------------------------------------ when the output is in normal form

  lemma {:induction false} RenderSum(a: seq<string>, b: seq<string>)
    ensures Render(a + b) == Render(a) + Render(b)
    decreases |b|
  {
    if b == [] {
      assert a + b == a;
    } else {
      var b', c := b[..|b| - 1], b[|b| - 1];
      assert (a + b)[..|a + b| - 1] == a + b';
      RenderSum(a, b');
      assert Render(a) + Render(b') + "/" + c == Render(a) + (Render(b') + "/" + c);
    }
  }

  lemma RenderOne(c: string)
    ensures Render([c]) == "/" + c
  {
    assert Render([c]) == "" + "/" + c;
  }

  /** Text holds its components and the slashes before them. */
  lemma {:induction false} RenderFits(x: string)
    requires Slashed(x)
    ensures |Render(Comps(x))| <= |x|
    decreases |x|
  {
    hide Render;
    if x == "" {
      EmptyStack();
    } else {
      var y := x[1..];
      if Slashed(y) {
        RenderFits(y);
      } else {
        var e := NameLen(y);
        RenderFits(y[e..]);
        RenderSum([y[..e]], Comps(y[e..]));
        RenderOne(y[..e]);
      }
    }
  }

  /** The climbs used up the directory's components and left no slash too many. */
  predicate Tidy(cwd: string, u: nat, t: seq<string>) {
    if Bare(cwd) == "" then u >= Lead(cwd) && t == []
    else u > 1 + Slashes(Bare(cwd)) && (Lead(cwd) == 1 || (u >= Slashes(Bare(cwd)) + Lead(cwd) && t == []))
  }

  /** Slashes in front of a stack are right only as the root's own name. */
  lemma SlashesInFront(k: nat, t: seq<string>)
    ensures Finish(Rep(k) + Render(t)) == Finish(Render(t)) <==> k == 0 || (k == 1 && t == [])
  {
    RenderStarts(t);
    if k == 0 {
      assert Rep(0) + Render(t) == Render(t);
    } else if t == [] {
      assert Rep(k) + Render(t) == Rep(k);
      assert k == 1 ==> Rep(k) == "/";
    } else {
      assert |Rep(k) + Render(t)| > |Render(t)|;
    }
  }

  lemma StillThere(cwd: string, t: seq<string>)
    requires Absolute(cwd) && Comps(cwd) != []
    ensures Finish(cwd + "/" + Render(t)) != Finish(Render(Comps(cwd) + t))
  {
    hide Comps, Render;
    RenderFits(cwd);
    RenderSum(Comps(cwd), t);
    RenderStarts(Comps(cwd) + t);
  }

  lemma TidyIff(cwd: string, u: nat, t: seq<string>)
    requires Absolute(cwd) && ClimbedAway(cwd, u)
    ensures Finish(CutTimes(cwd + "/", u) + Render(t)) == Finish(Render(t)) <==> Tidy(cwd, u, t)
  {
    hide CutTimes, Slashes, Rep, Render, Lead, Finish;
    var y := CutDirectory(cwd, u);
    var l, bare := Lead(cwd), Bare(cwd);
    SlashesInFront(if bare == "" then Left(l + 1, u) else Left(l - 1, u - Slashes(bare) - 2), t);
  }

  /** The output of a relative path is the normal form of what was read exactly when it is tidy. */
  lemma RelativeNormal(path: string, cwd: string, n: nat)
    requires Directory(cwd) && !Absolute(path) && Normalize(path, cwd, n).Some?
    ensures var read := Read(path, cwd, n);
            Normalize(path, cwd, n).value == Finish(Render(Eval(Comps(cwd), read)))
            <==> Tidy(cwd, Unders([], read), Eval([], read))
  {
    hide Comps, Eval, Render, Clean, Normalize, Read, Cost, CutTimes, Unders, Meaning, Finish, Slashes, Lead;
    var read := Read(path, cwd, n);
    var u, w, t := Unders([], read), Comps(cwd), Eval([], read);
    RelativeOutcome(path, cwd, n);
    RelativePlace(path, cwd, n);
    BaseComps(path, cwd, n);
    NothingLeft(cwd, u);
    if ClimbedAway(cwd, u) {
      assert Comps(Normalize(path, cwd, n).value) == [] + t;
      assert [] + t == t;
      TidyIff(cwd, u, t);
    } else if u == 0 {
      NoCut(cwd + "/");
      CompsWithSlash(cwd);
      EvalOver(w, [], read);
      assert w + [] == w && w[..|w|] == w;
      StillThere(cwd, t);
    } else {
      EvalNamesClean(w, path, read);
      CleanStack(Eval(w, read));
      CompsRender(Eval(w, read));
    }
  }

  lemma EvalNamesClean(w: seq<string>, path: string, read: seq<string>)
    requires Clean(w) && read <= Comps(path)
    ensures Clean(Eval(w, read))
  {
    hide Comps, Clean, Eval;
    CompsAreNames(path);
    EvalClean(w, read);
  }

  // ------------------------------------------------------------------ normalizing again

  lemma {:induction false} RenderCost(st: seq<string>)
    requires Clean(st)
    ensures |Render(st)| == Cost(st)
  {
    hide Price, CleanName;
    if st != [] {
      var init, c := st[..|st| - 1], st[|st| - 1];
      RenderCost(init);
      assert st == init + [c];
      CostPushed(init, c);
      PriceOf(c);
    }
  }

  /** Whatever the path, normalizing the output once more gives its normal form. */
  lemma AgainIsNormal(path: string, cwd: string, other: string, n: nat)
    requires Directory(cwd) && n >= 2 && Normalize(path, cwd, n).Some?
    ensures var r := Normalize(path, cwd, n).value;
            |r| < n && Normalize(r, other, n) == Some(Finish(Render(Comps(r))))
  {
    hide Comps, Eval, Render, Clean, Normalize, Read, Cost, Base, Absolute;
    var r := Normalize(path, cwd, n).value;
    DirectoryKept(path, cwd, n);
    OutputShort(path, cwd, n);
    DirectoryIs(r);
    RenderFits(r);
    RenderCost(Comps(r));
    CleanIsRead(r, other, n);
  }

  lemma DirectoryIs(r: string)
    requires Directory(r)
    ensures Slashed(r) && Absolute(r) && Clean(Comps(r))
  {}

  lemma OutputShort(path: string, cwd: string, n: nat)
    requires Directory(cwd) && n >= 2 && Normalize(path, cwd, n).Some?
    ensures |Normalize(path, cwd, n).value| < n
  {
    hide Comps, Eval, Render, Clean, Normalize, Read, Base, Cost, Stop;
    if Absolute(path) {
      OutputClean(path, cwd, n);
      RenderCost(Comps(Normalize(path, cwd, n).value));
    } else {
      var read := Read(path, cwd, n);
      RelativeOutcome(path, cwd, n);
      BaseComps(path, cwd, n);
      RenderCost(Eval([], read));
      EvalCost([], read);
      CostNone();
    }
  }
}
