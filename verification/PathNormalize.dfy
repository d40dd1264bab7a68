/** path_normalize: an in-place, bounded-buffer form of evaluating a path on a stack of components. */
module PathNormalize {
  import opened Options

  // ------------------------------------------------------------------ the meaning of a path

  /** The length of the leading run of characters other than a slash. */
  function NameLen(s: string): (n: nat)
    ensures n <= |s| && (forall i :: 0 <= i < n ==> s[i] != '/') && (n < |s| ==> s[n] == '/')
  {
    if s == "" || s[0] == '/' then 0 else 1 + NameLen(s[1..])
  }

  /** The components of a path: what stands between slashes, runs of slashes counting as one. */
  function Comps(s: string): (r: seq<string>)
    decreases |s|
  {
    if s == "" then [] else if s[0] == '/' then Comps(s[1..]) else [s[..NameLen(s)]] + Comps(s[NameLen(s)..])
  }

  function Apply(st: seq<string>, c: string): seq<string> {
    if c == "." then st else if c == ".." then (if st == [] then [] else st[..|st| - 1]) else st + [c]
  }

  function Eval(st: seq<string>, cs: seq<string>): seq<string>
    decreases |cs|
  {
    if cs == [] then st else Eval(Apply(st, cs[0]), cs[1..])
  }

  function Render(st: seq<string>): string {
    if st == [] then "" else Render(st[..|st| - 1]) + "/" + st[|st| - 1]
  }

  function Finish(out: string): string {
    if out == "" then "/" else out
  }

  /** What a path means. */
  function Meaning(path: string): string {
    Finish(Render(Eval([], Comps(path))))
  }

  predicate Name(c: string) {
    c != "" && '/' !in c
  }

  predicate CleanName(c: string) {
    Name(c) && c != "." && c != ".."
  }

  predicate Clean(st: seq<string>) {
    forall i :: 0 <= i < |st| ==> CleanName(st[i])
  }

  // ------------------------------------------------------------------ components

  lemma {:induction false} CompsAreNames(s: string)
    ensures forall i :: 0 <= i < |Comps(s)| ==> Name(Comps(s)[i])
    decreases |s|
  {
    if s != "" {
      if s[0] == '/' { CompsAreNames(s[1..]); } else { CompsAreNames(s[NameLen(s)..]); }
    }
  }

  lemma {:induction false} NameLenPrefix(a: string, b: string)
    requires a != "" && '/' !in a && (b == "" || b[0] == '/')
    ensures NameLen(a + b) == |a|
  {
    if |a| > 1 {
      assert (a + b)[1..] == a[1..] + b;
      NameLenPrefix(a[1..], b);
    } else {
      assert (a + b)[1..] == b;
    }
  }

  lemma {:induction false} NameLenSplit(a: string, b: string)
    requires a != "" && a[0] != '/' && (NameLen(a) < |a| || b == "" || b[0] == '/')
    ensures NameLen(a + b) == NameLen(a)
  {
    assert (a + b)[1..] == a[1..] + b;
    if |a| > 1 && a[1] != '/' { NameLenSplit(a[1..], b); }
  }

  /** A slash separates components. */
  lemma {:induction false} CompsJoin(a: string, b: string)
    requires b == "" || b[0] == '/'
    ensures Comps(a + b) == Comps(a) + Comps(b)
    decreases |a|
  {
    if a == "" {
      assert a + b == b;
    } else if a[0] == '/' {
      assert (a + b)[1..] == a[1..] + b;
      CompsJoin(a[1..], b);
    } else {
      var n := NameLen(a);
      NameLenSplit(a, b);
      assert (a + b)[..n] == a[..n] && (a + b)[n..] == a[n..] + b;
      CompsJoin(a[n..], b);
    }
  }

  lemma CompsOfName(c: string)
    requires Name(c)
    ensures Comps("/" + c) == [c]
  {
    var s := "/" + c;
    assert s[1..] == c && c[0] in c;
    NameLenPrefix(c, "");
    assert c + "" == c && c[..|c|] == c && c[|c|..] == "";
    assert Comps(c) == [c] + Comps("");
  }

  /** Rendering then splitting gives the components back. */
  lemma {:induction false} CompsRender(st: seq<string>)
    requires forall i :: 0 <= i < |st| ==> Name(st[i])
    ensures Comps(Render(st)) == st && Comps(Finish(Render(st))) == st
  {
    if st == [] {
      assert "/"[1..] == "";
    } else {
      var init, c := st[..|st| - 1], st[|st| - 1];
      CompsRender(init);
      CompsJoin(Render(init), "/" + c);
      CompsOfName(c);
      assert Render(st) == Render(init) + ("/" + c) && st == init + [c];
    }
  }

  // ------------------------------------------------------------------ evaluation

  lemma {:induction false} EvalClean(st: seq<string>, cs: seq<string>)
    requires Clean(st) && forall i :: 0 <= i < |cs| ==> Name(cs[i])
    ensures Clean(Eval(st, cs))
    decreases |cs|
  {
    if cs != [] { EvalClean(Apply(st, cs[0]), cs[1..]); }
  }

  lemma {:induction false} EvalPushes(st: seq<string>, cs: seq<string>)
    requires Clean(cs)
    ensures Eval(st, cs) == st + cs
    decreases |cs|
  {
    if cs == [] {
      assert st + [] == st;
    } else {
      EvalPushes(st + [cs[0]], cs[1..]);
      assert (st + [cs[0]]) + cs[1..] == st + cs;
    }
  }

  lemma {:induction false} EvalJoin(st: seq<string>, a: seq<string>, b: seq<string>)
    ensures Eval(st, a + b) == Eval(Eval(st, a), b)
    decreases |a|
  {
    if a == [] {
      assert a + b == b;
    } else {
      assert (a + b)[1..] == a[1..] + b;
      EvalJoin(Apply(st, a[0]), a[1..], b);
    }
  }

  /** The meaning of a path has no empty, `.` or `..` component. */
  lemma MeaningIsClean(path: string)
    ensures Clean(Comps(Meaning(path))) && Comps(Meaning(path)) == Eval([], Comps(path))
    ensures Meaning(path) == Finish(Render(Comps(Meaning(path))))
  {
    CompsAreNames(path);
    EvalClean([], Comps(path));
    CompsRender(Eval([], Comps(path)));
  }

  lemma CompsOfJoined(p: string, q: string)
    ensures Comps(p + "/" + q) == Comps(p) + Comps("/" + q)
  {
    assert p + "/" + q == p + ("/" + q);
    CompsJoin(p, "/" + q);
  }

  /** What the dots mean: `x/..` and `.` go nowhere, above the root is the root, and a name goes one down. */
  lemma DotsMean(p: string, x: string)
    requires CleanName(x)
    ensures Meaning(p + "/" + (x + "/..")) == Meaning(p) && Meaning(p + "/" + ".") == Meaning(p)
    ensures Meaning("/..") == "/"
    ensures Comps(Meaning(p + "/" + x)) == Comps(Meaning(p)) + [x]
  {
    hide Comps, Eval, Apply, Render;
    var st := Eval([], Comps(p));
    CompsOfName(x);
    CompsOfName(".");
    CompsOfName("..");
    CompsOfJoined(p, x);
    CompsOfJoined(p, ".");
    CompsOfJoined(p, x + "/..");
    assert "/" + (x + "/..") == ("/" + x) + "/..";
    CompsJoin("/" + x, "/..");
    EvalJoin([], Comps(p), [x]);
    EvalJoin([], Comps(p), ["."]);
    EvalJoin([], Comps(p), [x] + [".."]);
    EvalJoin(st, [x], [".."]);
    EvalOne(st, x);
    EvalOne(st, ".");
    EvalOne(st + [x], "..");
    EvalOne([], "..");
    assert (st + [x])[..|st|] == st;
    MeaningIsClean(p);
    MeaningIsClean(p + "/" + x);
    assert "/" + "." == "/." && "/" + ".." == "/..";
    NothingRendered();
  }

  lemma EvalOne(st: seq<string>, c: string)
    ensures Eval(st, [c])
            == if c == "." then st else if c != ".." then st + [c] else if st == [] then [] else st[..|st| - 1]
  {
    assert [c][1..] == [];
  }

  lemma NothingRendered()
    ensures Render([]) == ""
  {}

  /** The meaning of a prefix may be taken first. */
  lemma MeaningComposes(p: string, q: string)
    ensures Meaning(p + "/" + q) == Meaning(Meaning(p) + "/" + q)
  {
    hide Comps, Eval, Render, Clean;
    MeaningIsClean(p);
    var cp, cm, cq := Comps(p), Comps(Meaning(p)), Comps("/" + q);
    EvalPushes([], cm);
    assert [] + cm == cm;
    CompsOfJoined(p, q);
    CompsOfJoined(Meaning(p), q);
    EvalJoin([], cp, cq);
    EvalJoin([], cm, cq);
  }

  // ------------------------------------------------------------------ the bounded buffer

  /** Where the backward scan of `..` stops: the last slash at or before k, or the start. */
  function LastSlash(out: string, k: nat): (j: nat)
    requires k < |out|
    ensures j <= k && (j == 0 || out[j] == '/') && forall i :: j < i <= k ==> out[i] != '/'
  {
    if k == 0 || out[k] == '/' then k else LastSlash(out, k - 1)
  }

  /** What `..` leaves of the output. */
  function Cut(out: string): string {
    if |out| <= 1 then out else out[..LastSlash(out, |out| - 1)]
  }

  /** The component loop: `remaining` shrinks at every component written and is never given back. */
  function Loop(out: string, remaining: int, cs: seq<string>): (r: Option<string>)
    decreases |cs|
  {
    if cs == [] || remaining <= 1 then Some(out)
    else if cs[0] == "." then Loop(out, remaining, cs[1..])
    else if cs[0] == ".." then Loop(Cut(out), remaining, cs[1..])
    else if |cs[0]| + 1 >= remaining then None
    else Loop(out + "/" + cs[0], remaining - |cs[0]| - 1, cs[1..])
  }

  predicate Absolute(path: string) {
    path != "" && path[0] == '/'
  }

  function Normalize(path: string, cwd: string, n: nat): (r: Option<string>) {
    if !Absolute(path) && |cwd| + 1 >= n then None
    else
      var r := if Absolute(path) then Loop("", n, Comps(path)) else Loop(cwd + "/", n - |cwd| - 1, Comps(path));
      if r.None? then None else Some(Finish(r.value))
  }

  function Price(c: string): nat {
    if c == "." || c == ".." then 0 else |c| + 1
  }

  /** Room the components take when none is given back. */
  function Cost(cs: seq<string>): nat {
    if cs == [] then 0 else Price(cs[0]) + Cost(cs[1..])
  }

  /** How many components are read before the cost reaches remaining - 1. */
  function Stop(cs: seq<string>, remaining: int): (k: nat)
    ensures k <= |cs|
    decreases |cs|
  {
    if cs == [] || remaining <= 1 then 0 else 1 + Stop(cs[1..], remaining - Price(cs[0]))
  }

  lemma CutRender(pre: string, st: seq<string>, c: string)
    requires Name(c)
    ensures Cut(pre + Render(st + [c])) == pre + Render(st)
  {
    var out, k := pre + Render(st + [c]), |pre| + |Render(st)|;
    assert (st + [c])[..|st|] == st;
    assert out == (pre + Render(st)) + "/" + c;
    assert out[..k] == pre + Render(st) && out[k] == '/';
    forall i | k < i < |out|
      ensures out[i] != '/'
    {
      assert out[i] == c[i - k - 1] && out[i] in c;
    }
  }

  lemma CutSlash(cwd: string)
    requires cwd != ""
    ensures Cut(cwd + "/") == cwd
  {
    var out := cwd + "/";
    assert out[|out| - 1] == '/' && out[..|cwd|] == cwd;
  }

  lemma RenderPush(pre: string, st: seq<string>, c: string)
    ensures pre + Render(st) + "/" + c == pre + Render(st + [c])
  {
    assert (st + [c])[..|st|] == st;
  }

  lemma NameIsClean(c: string)
    requires Name(c) && c != "." && c != ".."
    ensures CleanName(c)
  {}

  /** How many `..` find the stack empty. */
  function Unders(st: seq<string>, cs: seq<string>): nat
    decreases |cs|
  {
    if cs == [] then 0 else (if cs[0] == ".." && st == [] then 1 else 0) + Unders(Apply(st, cs[0]), cs[1..])
  }

  /** What u of them leave of the output below the stack. */
  function CutTimes(pre: string, u: nat): string
    decreases u
  {
    if u == 0 then pre else CutTimes(Cut(pre), u - 1)
  }

  lemma CutApplied(pre: string, st: seq<string>)
    requires Clean(st)
    ensures Cut(pre + Render(st)) == if st == [] then Cut(pre) else pre + Render(Apply(st, ".."))
  {
    if st == [] {
      assert pre + Render(st) == pre;
    } else {
      assert st == st[..|st| - 1] + [st[|st| - 1]];
      CutRender(pre, st[..|st| - 1], st[|st| - 1]);
    }
  }

  /**
   * The loop, as a stack machine on top of any earlier output: it evaluates the components it reads, and each `..`
   * that finds the stack empty cuts the earlier output. It stops early, silently, when exactly one byte remains, and
   * fails when a component would leave less.
   */
  lemma {:induction false} LoopEvaluates(pre: string, st: seq<string>, cs: seq<string>, rem: int)
    requires Clean(st) && (forall i :: 0 <= i < |cs| ==> Name(cs[i])) && rem >= 1
    ensures var read := cs[..Stop(cs, rem)];
            Loop(pre + Render(st), rem, cs)
            == if Cost(read) >= rem then None
               else Some(CutTimes(pre, Unders(st, read)) + Render(Eval(st, read)))
    decreases |cs|
  {
    hide CleanName, Render, Cut, Name;
    var k := Stop(cs, rem);
    if cs == [] || rem == 1 {
      assert cs[..k] == [];
    } else {
      var c, cs' := cs[0], cs[1..];
      assert cs[..k][0] == c && cs[..k][1..] == cs'[..k - 1];
      if c == "." {
        LoopEvaluates(pre, st, cs', rem);
      } else if c == ".." {
        CutApplied(pre, st);
        if st == [] {
          EmptyStack();
          assert Cut(pre) + Render([]) == Cut(pre);
          LoopEvaluates(Cut(pre), [], cs', rem);
        } else {
          LoopEvaluates(pre, Apply(st, c), cs', rem);
        }
      } else if |c| + 1 < rem {
        RenderPush(pre, st, c);
        NameIsClean(c);
        LoopEvaluates(pre, st + [c], cs', rem - |c| - 1);
      }
    }
  }

  /** Nothing is cut from an empty output. */
  lemma {:induction false} CutNothing(u: nat)
    ensures CutTimes("", u) == ""
  {
    if u > 0 { CutNothing(u - 1); }
  }

  lemma {:induction false} StopsInTime(cs: seq<string>, rem: int)
    requires rem >= 1
    ensures Cost(cs) <= rem - 2 ==> Stop(cs, rem) == |cs|
    ensures Stop(cs, rem) < |cs| ==> Cost(cs[..Stop(cs, rem)]) >= rem - 1
    decreases |cs|
  {
    if cs != [] && rem >= 2 {
      var r, k := rem - Price(cs[0]), Stop(cs, rem);
      assert cs[..k][0] == cs[0] && cs[..k][1..] == cs[1..][..k - 1];
      if r >= 1 { StopsInTime(cs[1..], r); }
    }
  }

  /** Rendering forgets nothing. */
  lemma RenderInjective(a: seq<string>, b: seq<string>)
    requires Clean(a) && Clean(b)
    ensures Finish(Render(a)) == Finish(Render(b)) ==> a == b
  {
    CompsRender(a);
    CompsRender(b);
  }

  /**
   * Absolute paths, every outcome: with k components read, the result is an error exactly when they cost n or more,
   * and otherwise it is what those k components mean. It is right exactly when they already mean the whole path;
   * a path costing at most n - 2 is read to its end.
   */
  lemma AbsoluteOutcome(path: string, cwd: string, n: nat)
    requires Absolute(path) && n >= 2
    ensures var cs := Comps(path); var k := Stop(cs, n);
            && Normalize(path, cwd, n)
               == (if Cost(cs[..k]) >= n then None else Some(Finish(Render(Eval([], cs[..k])))))
            && (Normalize(path, cwd, n) == Some(Meaning(path))
                <==> Cost(cs[..k]) < n && Eval([], cs[..k]) == Eval([], cs))
            && (k < |cs| ==> Cost(cs[..k]) >= n - 1)
            && (Cost(cs) <= n - 2 ==> k == |cs| && Normalize(path, cwd, n) == Some(Meaning(path)))
  {
    hide Comps, Eval, Render, Clean, Loop, Stop, Cost, Name, CutTimes, Unders;
    var cs, k := Comps(path), Stop(Comps(path), n);
    CompsAreNames(path);
    EmptyStack();
    LoopEvaluates("", [], cs, n);
    CutNothing(Unders([], cs[..k]));
    assert "" + Render([]) == "";
    assert "" + Render(Eval([], cs[..k])) == Render(Eval([], cs[..k]));
    StopsInTime(cs, n);
    assert cs[..|cs|] == cs;
    EvalClean([], cs);
    EvalClean([], cs[..k]);
    RenderInjective(Eval([], cs), Eval([], cs[..k]));
  }

  lemma EmptyStack()
    ensures Clean([]) && Render([]) == ""
  {}

  lemma RenderPair(c: string, d: string)
    ensures Render([c]) == "/" + c && Render([c, d]) == "/" + c + "/" + d
  {
    assert [c][..0] == [] && [c, d][..1] == [c];
    assert Render([c]) == "" + "/" + c;
  }

  lemma PriceOf(c: string)
    requires CleanName(c)
    ensures Price(c) == |c| + 1
  {}

  lemma PairStops(c: string, d: string)
    requires CleanName(c)
    ensures Stop([c, d], |c| + 2) == 1 && [c, d][..1] == [c] && Cost([c]) == |c| + 1
  {
    hide Price, CleanName;
    var cs, one := [c, d], [c];
    PriceOf(c);
    assert cs[1..] == [d] && one[1..] == [] && cs[..1] == one;
    assert Stop([d], 1) == 0;
    assert Cost(one) == Price(c) + Cost([]);
  }

  /** A second component is dropped without an error when the first fills all but two bytes of the buffer. */
  lemma SilentTruncation(c: string, d: string, cwd: string)
    requires CleanName(c) && CleanName(d)
    ensures Meaning("/" + c + "/" + d) == "/" + c + "/" + d
    ensures Normalize("/" + c + "/" + d, cwd, |c| + 2) == Some("/" + c)
  {
    hide Comps, Eval, Render, Stop, Cost, Normalize, CleanName, Name;
    var cs := [c, d];
    RenderPair(c, d);
    assert Clean(cs) && Clean([c]);
    assert Name(c) && Name(d) && c != "" by { CleanNames(c); CleanNames(d); }
    CompsRender(cs);
    EvalPushes([], cs);
    EvalPushes([], [c]);
    assert [] + cs == cs && [] + [c] == [c];
    PairStops(c, d);
    AbsoluteOutcome("/" + c + "/" + d, cwd, |c| + 2);
  }

  lemma CleanNames(c: string)
    requires CleanName(c)
    ensures Name(c) && c != ""
  {}

  // ------------------------------------------------------------------ normalizing again

  lemma {:induction false} CostPrefix(a: seq<string>, b: seq<string>)
    ensures Cost(a + b) == Cost(a) + Cost(b)
    decreases |a|
  {
    if a == [] {
      assert a + b == b;
    } else {
      assert (a + b)[1..] == a[1..] + b;
      CostPrefix(a[1..], b);
    }
  }

  lemma CostOne(c: string)
    ensures Cost([c]) == Price(c)
  {
    assert [c][1..] == [];
  }

  lemma CostPushed(st: seq<string>, c: string)
    ensures Cost(st + [c]) == Cost(st) + Price(c)
  {
    hide Price, Cost;
    CostPrefix(st, [c]);
    CostOne(c);
  }

  /** What is left on the stack costs no more than what was read. */
  lemma {:induction false} EvalCost(st: seq<string>, cs: seq<string>)
    ensures Cost(Eval(st, cs)) <= Cost(st) + Cost(cs)
    decreases |cs|
  {
    hide Price;
    if cs != [] {
      var c := cs[0];
      EvalCost(Apply(st, c), cs[1..]);
      CostPushed(st, c);
      if st != [] {
        assert st == st[..|st| - 1] + [st[|st| - 1]];
        CostPushed(st[..|st| - 1], st[|st| - 1]);
      }
    }
  }

  /** A stack of names that fits is read to its end, even if it leaves only one byte. */
  lemma {:induction false} StackIsRead(st: seq<string>, rem: int)
    requires Clean(st) && Cost(st) < rem
    ensures Stop(st, rem) == |st|
    decreases |st|
  {
    if st != [] {
      assert CleanName(st[0]);
      StackIsRead(st[1..], rem - Price(st[0]));
    }
  }

  /** Every successful output for an absolute path, cut short or not, is in normal form. */
  lemma OutputClean(path: string, cwd: string, n: nat)
    requires Absolute(path) && n >= 2 && Normalize(path, cwd, n).Some?
    ensures var r := Normalize(path, cwd, n).value;
            && Absolute(r) && Clean(Comps(r)) && r == Finish(Render(Comps(r))) && Cost(Comps(r)) < n
  {
    hide Comps, Eval, Render, Clean, Stop, Cost, Name, Normalize;
    AbsoluteOutcome(path, cwd, n);
    var read := Comps(path)[..Stop(Comps(path), n)];
    CompsAreNames(path);
    EmptyStack();
    EvalClean([], read);
    CleanStack(Eval([], read));
    CompsRender(Eval([], read));
    RenderAbsolute(Eval([], read));
    EvalCost([], read);
    CostNone();
  }

  lemma CostNone()
    ensures Cost([]) == 0
  {}

  lemma CleanStack(w: seq<string>)
    requires Clean(w)
    ensures forall i :: 0 <= i < |w| ==> Name(w[i])
  {}

  lemma {:induction false} RenderAbsolute(st: seq<string>)
    ensures Absolute(Finish(Render(st)))
  {
    if |st| > 1 {
      var init := st[..|st| - 1];
      RenderAbsolute(init);
      assert Render(init) != "";
    } else if |st| == 1 {
      assert Render(st) == "" + "/" + st[0];
    }
  }

  /** A path whose components are clean and fit is normalized to their rendering. */
  lemma CleanIsRead(r: string, cwd: string, n: nat)
    requires Absolute(r) && n >= 2 && Clean(Comps(r)) && Cost(Comps(r)) < n
    ensures Normalize(r, cwd, n) == Some(Finish(Render(Comps(r))))
  {
    hide Comps, Eval, Render, Clean, Stop, Cost, Normalize;
    var cs := Comps(r);
    AbsoluteOutcome(r, cwd, n);
    StackIsRead(cs, n);
    assert cs[..|cs|] == cs;
    EvalPushes([], cs);
    assert [] + cs == cs;
  }

  /** Normalizing an output again, as vfs_chdir does before a later lookup, changes nothing. */
  lemma Idempotent(path: string, cwd: string, other: string, n: nat)
    requires Absolute(path) && n >= 2 && Normalize(path, cwd, n).Some?
    ensures var r := Normalize(path, cwd, n).value; Normalize(r, other, n) == Some(r)
  {
    hide Comps, Render, Clean, Cost, Normalize;
    OutputClean(path, cwd, n);
    CleanIsRead(Normalize(path, cwd, n).value, other, n);
  }

  /** Normalizing a prefix first makes no difference to a path that fits. */
  lemma Compositional(p: string, q: string, cwd: string, n: nat)
    requires Absolute(p) && n >= 2 && Cost(Comps(p + "/" + q)) <= n - 2
    ensures Normalize(p, cwd, n) == Some(Meaning(p))
    ensures Normalize(p + "/" + q, cwd, n) == Some(Meaning(p + "/" + q))
    ensures Normalize(Meaning(p) + "/" + q, cwd, n) == Normalize(p + "/" + q, cwd, n)
  {
    hide Comps, Eval, Render, Cost, Normalize, Stop, Meaning;
    var m := Meaning(p);
    CompsOfJoined(p, q);
    CompsOfJoined(m, q);
    CostPrefix(Comps(p), Comps("/" + q));
    CostPrefix(Comps(m), Comps("/" + q));
    MeaningIsClean(p);
    MeaningAbsolute(p);
    EvalCost([], Comps(p));
    CostNone();
    AbsoluteOutcome(p, cwd, n);
    AbsoluteOutcome(p + "/" + q, cwd, n);
    AbsoluteOutcome(m + "/" + q, cwd, n);
    MeaningComposes(p, q);
  }

  lemma MeaningAbsolute(p: string)
    ensures Absolute(Meaning(p))
  {
    RenderAbsolute(Eval([], Comps(p)));
  }

  // ------------------------------------------------------------------ the method

  lemma SkipSlash(path: string, p: nat)
    requires p < |path| && path[p] == '/'
    ensures Comps(path[p..]) == Comps(path[p + 1..])
  {
    assert path[p..][1..] == path[p + 1..];
  }

  lemma {:induction false} NameEnds(s: string, e: nat)
    requires s != "" && e <= |s| && (forall i :: 0 <= i < e ==> s[i] != '/') && (e < |s| ==> s[e] == '/')
    ensures NameLen(s) == e
  {
    if e > 0 && |s| > 1 { NameEnds(s[1..], e - 1); }
  }

  lemma TakeName(path: string, p: nat, end: nat)
    requires p < end <= |path| && (forall i :: p <= i < end ==> path[i] != '/') && (end < |path| ==> path[end] == '/')
    ensures Comps(path[p..]) == [path[p..end]] + Comps(path[end..])
  {
    var s := path[p..];
    NameEnds(s, end - p);
    assert s[..end - p] == path[p..end] && s[end - p..] == path[end..];
  }

  lemma LoopStep(out: string, rem: int, c: string, cs: seq<string>)
    requires rem > 1
    ensures Loop(out, rem, [c] + cs)
            == if c == "." then Loop(out, rem, cs)
               else if c == ".." then Loop(Cut(out), rem, cs)
               else if |c| + 1 >= rem then None
               else Loop(out + "/" + c, rem - |c| - 1, cs)
  {
    assert ([c] + cs)[1..] == cs;
  }

  /** The backward scan, in place: o is the write position. */
  method DropLast(out: array<char>, o: nat) returns (r: nat)
    requires o <= out.Length
    ensures r <= o && out[..r] == Cut(out[..o])
  {
    r := o;
    if r > 1 {
      r := r - 1;
      while r > 0 && out[r] != '/'
        invariant r < o
        invariant forall i :: r < i < o ==> out[i] != '/'
      {
        r := r - 1;
      }
      assert LastSlash(out[..o], o - 1) == r by { ScanStops(out[..o], o - 1, r); }
      assert out[..o][..r] == out[..r];
    }
  }

  lemma {:induction false} ScanStops(out: string, k: nat, j: nat)
    requires j <= k < |out| && (j == 0 || out[j] == '/') && forall i :: j < i <= k ==> out[i] != '/'
    ensures LastSlash(out, k) == j
  {
    if j < k { ScanStops(out, k - 1, j); }
  }

  lemma LoopEnds(out: string, rem: int, s: string)
    requires rem <= 1 || s == ""
    ensures Loop(out, rem, Comps(s)) == Some(out)
  {}

  method SkipSlashes(path: string, p: nat) returns (q: nat)
    requires p <= |path|
    ensures p <= q <= |path| && (q < |path| ==> path[q] != '/') && Comps(path[q..]) == Comps(path[p..])
    ensures forall i :: p <= i < q ==> path[i] == '/'
  {
    q := p;
    while q < |path| && path[q] == '/'
      invariant p <= q <= |path| && Comps(path[q..]) == Comps(path[p..])
      invariant forall i :: p <= i < q ==> path[i] == '/'
    {
      SkipSlash(path, q);
      q := q + 1;
    }
  }

  method NameEnd(path: string, p: nat) returns (end: nat)
    requires p < |path| && path[p] != '/'
    ensures p < end <= |path| && (forall i :: p <= i < end ==> path[i] != '/') && (end < |path| ==> path[end] == '/')
  {
    end := p;
    while end < |path| && path[end] != '/'
      invariant p <= end <= |path| && forall i :: p <= i < end ==> path[i] != '/'
    {
      end := end + 1;
    }
  }

  /** memcpy of a component into the buffer. */
  method Append(out: array<char>, o: nat, c: string)
    requires o + |c| <= out.Length
    modifies out
    ensures out[..o + |c|] == old(out[..o]) + c && out[o + |c|..] == old(out[o + |c|..])
  {
    forall i | 0 <= i < |c| { out[o + i] := c[i]; }
  }

  /** One component: skipped, popped or written, with what it costs. */
  method TakeComponent(c: string, ghost cs: seq<string>, out: array<char>, o: nat, remaining: nat, n: nat)
    returns (ok: bool, o': nat, remaining': nat)
    requires remaining > 1 && o + remaining <= n <= out.Length
    modifies out
    ensures out[n..] == old(out[n..])
    ensures ok ==> 1 <= remaining' && o' + remaining' <= n
    ensures Loop(old(out[..o]), remaining, [c] + cs) == if ok then Loop(out[..o'], remaining', cs) else None
  {
    hide Loop, Cut;
    LoopStep(out[..o], remaining, c, cs);
    ok, o', remaining' := true, o, remaining;
    if c == "." {
      return;
    }
    if c == ".." {
      o' := DropLast(out, o);
      return;
    }
    if |c| + 1 >= remaining {
      ok := false;
      return;
    }
    assert out[..o] + ("/" + c) == out[..o] + "/" + c;
    Append(out, o, "/" + c);
    o' := o + 1 + |c|;
    remaining' := remaining - |c| - 1;
    assert out[n..] == out[o'..][n - o'..];
  }

  /** The main loop, from the write position o. */
  method TakeComponents(path: string, out: array<char>, o: nat, remaining: nat, n: nat) returns (ok: bool, o': nat)
    requires 1 <= remaining && o + remaining <= n <= out.Length
    modifies out
    ensures out[n..] == old(out[n..]) && (ok ==> o' < n)
    ensures Loop(old(out[..o]), remaining, Comps(path)) == if ok then Some(out[..o']) else None
  {
    hide Loop, Comps;
    var p, rem := 0, remaining;
    ok, o' := true, o;
    assert path[0..] == path;
    ghost var goal := Loop(out[..o], remaining, Comps(path));
    while p < |path| && rem > 1
      invariant p <= |path| && 1 <= rem && o' + rem <= n
      invariant Loop(out[..o'], rem, Comps(path[p..])) == goal
      invariant out[n..] == old(out[n..])
      decreases |path| - p
    {
      p := SkipSlashes(path, p);
      if p == |path| { break; }
      var end := NameEnd(path, p);
      TakeName(path, p, end);
      ok, o', rem := TakeComponent(path[p..end], Comps(path[end..]), out, o', rem, n);
      if !ok { return; }
      p := end;
    }
    LoopEnds(out[..o'], rem, path[p..]);
  }

  /** The last lines: an empty output becomes the root, and a terminator follows. */
  method Terminate(out: array<char>, o: nat)
    requires o < out.Length && (o == 0 ==> out.Length >= 2)
    modifies out
    ensures var r := Finish(old(out[..o]));
            |r| < out.Length && out[..|r| + 1] == r + ['\0'] && out[|r| + 1..] == old(out[|r| + 1..])
  {
    var end := o;
    if o == 0 {
      out[0] := '/';
      end := 1;
      assert out[..1] == "/";
    }
    out[end] := '\0';
  }

  lemma FinishLength(x: string)
    ensures |Finish(x)| == if x == "" then 1 else |x|
  {}

  /** A relative path starts from the current directory and a slash. */
  method StoreDirectory(path: string, cwd: string, out: array<char>, n: nat) returns (ok: bool, o: nat)
    requires 0 < n <= out.Length
    modifies out
    ensures out[n..] == old(out[n..]) && (ok <==> Absolute(path) || |cwd| + 1 < n)
    ensures ok ==> o < n && out[..o] == if Absolute(path) then "" else cwd + "/"
  {
    ok, o := true, 0;
    if !(path != "" && path[0] == '/') {
      if |cwd| + 1 >= n { return false, 0; }
      Append(out, 0, cwd + "/");
      o := |cwd| + 1;
      assert out[..o] == cwd + "/";
      assert out[n..] == out[o..][n - o..];
    }
  }

  /** path_normalize. Only an output size of 1 lets it write past the end, by the one byte it then needs. */
  method Store(path: string, cwd: string, out: array<char>, n: nat) returns (ok: bool)
    requires n <= out.Length && (n == 1 ==> out.Length >= 2)
    modifies out
    ensures ok <==> n > 0 && Normalize(path, cwd, n).Some?
    ensures ok ==> var r := Normalize(path, cwd, n).value;
                   (|r| < n <==> n != 1) && |r| < out.Length && out[..|r| + 1] == r + ['\0']
    ensures var end := if ok && n == 1 then 2 else n; out[end..] == old(out[end..])
  {
    hide Loop, Comps, Finish;
    if n == 0 { return false; }
    var o;
    ok, o := StoreDirectory(path, cwd, out, n);
    if !ok { return; }
    ok, o := TakeComponents(path, out, o, n - o, n);
    if !ok { return; }
    FinishLength(out[..o]);
    ghost var end, m := |Finish(out[..o])| + 1, out[..];
    Terminate(out, o);
    if n > 1 { assert out[n..] == out[end..][n - end..] && m[n..] == m[end..][n - end..]; }
  }
}
