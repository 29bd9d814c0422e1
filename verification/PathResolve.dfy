// The in-place path normaliser: the output buffer is the stack of components.
module PathResolve {
  predicate IsSep(c: char) { c == '/' || c == '\\' }

  predicate NoSep(s: string) { forall i :: 0 <= i < |s| ==> !IsSep(s[i]) }

  predicate Dots(c: string) { c == "." || c == ".." }

  // A component a normal path may have.
  predicate Proper(c: string) { c != "" && NoSep(c) && !Dots(c) }

  predicate AllProper(stack: seq<string>) { forall i :: 0 <= i < |stack| ==> Proper(stack[i]) }

  // ---- Reference: split into components, then work through them with a stack ----

  function Split(path: string): (cs: seq<string>)
    ensures |cs| > 0
  {
    if path == "" then [""]
    else if IsSep(path[0]) then [""] + Split(path[1..])
    else
      var cs := Split(path[1..]);
      [[path[0]] + cs[0]] + cs[1..]
  }

  // One component: nothing and "." are dropped, ".." removes the last one, if any.
  function Enter(stack: seq<string>, c: string): seq<string> {
    if c == "" || c == "." then stack
    else if c == ".." then (if stack == [] then [] else stack[..|stack| - 1])
    else stack + [c]
  }

  function EnterAll(stack: seq<string>, cs: seq<string>): seq<string>
    decreases |cs|
  {
    if cs == [] then stack else EnterAll(Enter(stack, cs[0]), cs[1..])
  }

  // Every component of the stack followed by a separator.
  function Render(stack: seq<string>): string {
    if stack == [] then "" else Render(stack[..|stack| - 1]) + stack[|stack| - 1] + "/"
  }

  function LastOf(path: string): string {
    var cs := Split(path);
    cs[|cs| - 1]
  }

  // The normal form: the directories in front, then what follows the last separator.
  function Normal(path: string): string {
    var cs := Split(path);
    Render(EnterAll([], cs[..|cs| - 1])) + cs[|cs| - 1]
  }

  lemma EnterProper(stack: seq<string>, c: string)
    requires AllProper(stack) && NoSep(c)
    ensures AllProper(Enter(stack, c))
  {
  }

  lemma {:induction false} SplitNoSep(path: string)
    ensures forall i :: 0 <= i < |Split(path)| ==> NoSep(Split(path)[i])
  {
    if path != "" {
      SplitNoSep(path[1..]);
    }
  }

  lemma {:induction false} EnterAllProper(stack: seq<string>, cs: seq<string>)
    requires AllProper(stack) && forall i :: 0 <= i < |cs| ==> NoSep(cs[i])
    ensures AllProper(EnterAll(stack, cs))
    decreases |cs|
  {
    if cs != [] {
      EnterProper(stack, cs[0]);
      EnterAllProper(Enter(stack, cs[0]), cs[1..]);
    }
  }

  // ---- The same, character by character ----

  // What is left to do: `cur` is the component begun, `rest` the characters to come.
  function Resume(stack: seq<string>, cur: string, rest: string): string {
    var cs := Split(rest);
    if |cs| == 1 then Render(stack) + (cur + cs[0])
    else Render(EnterAll(Enter(stack, cur + cs[0]), cs[1..|cs| - 1])) + cs[|cs| - 1]
  }

  lemma ResumeStart(path: string)
    ensures Resume([], "", path) == Normal(path)
  {
    var cs := Split(path);
    assert "" + cs[0] == cs[0];
    if |cs| > 1 {
      assert cs[..|cs| - 1][1..] == cs[1..|cs| - 1];
    } else {
      assert cs[..|cs| - 1] == [];
    }
  }

  lemma ResumeEnd(stack: seq<string>, cur: string)
    ensures Resume(stack, cur, "") == Render(stack) + cur
  {
    assert cur + "" == cur;
  }

  lemma ResumeChar(stack: seq<string>, cur: string, rest: string)
    requires rest != "" && !IsSep(rest[0])
    ensures Resume(stack, cur, rest) == Resume(stack, cur + [rest[0]], rest[1..])
  {
    var cs, ds := Split(rest), Split(rest[1..]);
    assert cs == [[rest[0]] + ds[0]] + ds[1..];
    assert cur + cs[0] == (cur + [rest[0]]) + ds[0];
    assert |cs| > 1 ==> cs[1..|cs| - 1] == ds[1..|ds| - 1];
  }

  lemma Fronts(cs: seq<string>, ds: seq<string>)
    requires |ds| > 0 && cs == [""] + ds
    ensures cs[1..|cs| - 1] == ds[..|ds| - 1] && cs[|cs| - 1] == ds[|ds| - 1]
    ensures |ds| > 1 ==> ds[..|ds| - 1] != [] && ds[..|ds| - 1][0] == ds[0]
    ensures |ds| > 1 ==> ds[..|ds| - 1][1..] == ds[1..|ds| - 1]
    ensures |ds| == 1 ==> ds[..|ds| - 1] == []
  {
  }

  lemma ResumeSep(stack: seq<string>, cur: string, rest: string)
    requires rest != "" && IsSep(rest[0])
    ensures Resume(stack, cur, rest) == Resume(Enter(stack, cur), "", rest[1..])
  {
    var cs, ds := Split(rest), Split(rest[1..]);
    assert cs == [""] + ds;
    Fronts(cs, ds);
    hide Render, Split, Enter;
    assert cur + "" == cur;
    assert "" + ds[0] == ds[0];
  }

  // The last component, seen from inside one.
  function LastResume(cur: string, rest: string): string {
    var cs := Split(rest);
    if |cs| == 1 then cur + cs[0] else cs[|cs| - 1]
  }

  lemma LastChar(cur: string, rest: string)
    requires rest != ""
    ensures LastResume(cur, rest) ==
            if IsSep(rest[0]) then LastResume("", rest[1..]) else LastResume(cur + [rest[0]], rest[1..])
  {
    var cs, ds := Split(rest), Split(rest[1..]);
    if IsSep(rest[0]) {
      assert cs == [""] + ds;
      assert "" + ds[0] == ds[0];
    } else {
      assert cs == [[rest[0]] + ds[0]] + ds[1..];
      assert cur + cs[0] == (cur + [rest[0]]) + ds[0];
    }
  }

  // The buffer ends in a separator exactly between components.
  lemma RenderEnds(stack: seq<string>, cur: string)
    requires NoSep(cur)
    ensures var s := Render(stack) + cur;
      && (s == "" <==> stack == [] && cur == "")
      && (s != "" ==> (s[|s| - 1] == '/' <==> cur == "") && (IsSep(s[|s| - 1]) <==> cur == ""))
  {
    var s := Render(stack) + cur;
    if cur != "" {
      assert s[|s| - 1] == cur[|cur| - 1];
    }
  }

  lemma RenderPush(stack: seq<string>, c: string)
    ensures Render(stack + [c]) == Render(stack) + c + "/"
  {
    assert (stack + [c])[..|stack|] == stack;
  }

  // ---- What a normal path looks like ----

  lemma {:induction false} SplitComponent(c: string, sep: char, rest: string)
    requires NoSep(c) && IsSep(sep)
    ensures Split(c + [sep] + rest) == [c] + Split(rest)
  {
    var s := c + [sep] + rest;
    if c == "" {
      assert s == [sep] + rest && s[1..] == rest;
    } else {
      SplitComponent(c[1..], sep, rest);
      assert s[1..] == c[1..] + [sep] + rest;
      assert [c[0]] + c[1..] == c;
    }
  }

  lemma {:induction false} SplitLast(c: string)
    requires NoSep(c)
    ensures Split(c) == [c]
  {
    if c != "" {
      SplitLast(c[1..]);
      assert [c[0]] + c[1..] == c;
    }
  }

  lemma {:induction false} RenderFront(stack: seq<string>)
    requires stack != []
    ensures Render(stack) == stack[0] + "/" + Render(stack[1..])
  {
    if |stack| > 1 {
      var front := stack[..|stack| - 1];
      RenderFront(front);
      assert front[1..] == stack[1..][..|stack| - 2];
      assert stack[1..][|stack| - 2] == stack[|stack| - 1];
    }
  }

  lemma Assoc<T>(a: seq<T>, b: seq<T>, c: seq<T>)
    ensures a + b + c == a + (b + c)
  {
  }

  lemma {:induction false} SplitRender(stack: seq<string>, cur: string)
    requires AllProper(stack) && NoSep(cur)
    ensures Split(Render(stack) + cur) == stack + [cur]
    decreases |stack|
  {
    if stack == [] {
      SplitLast(cur);
      assert Render(stack) + cur == cur;
    } else {
      RenderFront(stack);
      hide Render, Split;
      SplitRender(stack[1..], cur);
      SplitComponent(stack[0], '/', Render(stack[1..]) + cur);
      Assoc(stack[0] + "/", Render(stack[1..]), cur);
      assert [stack[0]] + (stack[1..] + [cur]) == stack + [cur];
    }
  }

  lemma {:induction false} EnterAllKeeps(stack: seq<string>, cs: seq<string>)
    requires AllProper(cs)
    ensures EnterAll(stack, cs) == stack + cs
    decreases |cs|
  {
    if cs != [] {
      EnterAllKeeps(stack + [cs[0]], cs[1..]);
      assert stack + [cs[0]] + cs[1..] == stack + cs;
    } else {
      assert stack + cs == stack;
    }
  }

  // A normal path has no empty, "." or ".." component in front of its last one, which
  // is that of the path; in particular it does not start with a separator.
  lemma NormalComponents(path: string)
    ensures var cs := Split(Normal(path));
      AllProper(cs[..|cs| - 1]) && LastOf(Normal(path)) == LastOf(path)
  {
    var cs := Split(path);
    SplitNoSep(path);
    EnterAllProper([], cs[..|cs| - 1]);
    var stack := EnterAll([], cs[..|cs| - 1]);
    SplitRender(stack, cs[|cs| - 1]);
    assert (stack + [cs[|cs| - 1]])[..|stack|] == stack;
  }

  lemma Idempotent(path: string)
    ensures Normal(Normal(path)) == Normal(path)
  {
    var cs := Split(path);
    SplitNoSep(path);
    EnterAllProper([], cs[..|cs| - 1]);
    var stack, last := EnterAll([], cs[..|cs| - 1]), cs[|cs| - 1];
    SplitRender(stack, last);
    assert (stack + [last])[..|stack|] == stack;
    EnterAllKeeps([], stack);
    assert [] + stack == stack;
  }

  // ---- What each component does, said of paths ----

  predicate EndsDir(d: string) { d == "" || IsSep(d[|d| - 1]) }

  // The place of the first separator.
  function FirstSep(path: string): (k: nat)
    ensures k <= |path| && NoSep(path[..k]) && (k < |path| ==> IsSep(path[k]))
  {
    if path == "" || IsSep(path[0]) then 0 else 1 + FirstSep(path[1..])
  }

  function Front(path: string): seq<string> {
    var cs := Split(path);
    cs[..|cs| - 1]
  }

  lemma FrontComponent(c: string, s: char, r: string)
    requires NoSep(c) && IsSep(s)
    ensures Front(c + [s] + r) == [c] + Front(r) && LastOf(c + [s] + r) == LastOf(r)
  {
    SplitComponent(c, s, r);
  }

  lemma FrontLast(c: string)
    requires NoSep(c)
    ensures Front(c) == [] && LastOf(c) == c
  {
    SplitLast(c);
  }

  lemma Cut(path: string, k: nat)
    requires k < |path|
    ensures path == path[..k] + [path[k]] + path[k + 1..]
  {
    assert path[..k] + [path[k]] == path[..k + 1];
    assert path == path[..k + 1] + path[k + 1..];
  }

  // A path up to its first separator, that separator, and what follows.
  lemma AtFirst(path: string)
    requires FirstSep(path) < |path|
    ensures var k := FirstSep(path);
      path == path[..k] + [path[k]] + path[k + 1..] && NoSep(path[..k]) && IsSep(path[k])
  {
    hide *;
    Cut(path, FirstSep(path));
  }

  lemma DirFirst(d: string)
    requires d != "" && EndsDir(d)
    ensures FirstSep(d) < |d| && EndsDir(d[FirstSep(d) + 1..])
  {
    hide FirstSep;
    var k := FirstSep(d);
    assert forall j :: 0 <= j < k ==> !IsSep(d[j]) by {
      assert forall j :: 0 <= j < k ==> d[..k][j] == d[j];
    }
    var e := d[k + 1..];
    assert e != "" ==> e[|e| - 1] == d[|d| - 1];
  }

  lemma {:induction false} FrontBehind(d: string, r: string)
    requires EndsDir(d)
    ensures Front(d + r) == Front(d) + Front(r) && LastOf(d + r) == LastOf(r)
    decreases |d|
  {
    if d == "" {
      FrontLast("");
      assert d + r == r && [] + Front(r) == Front(r);
    } else {
      hide Front, LastOf, NoSep, EndsDir, IsSep, FirstSep;
      var k := FirstSep(d);
      DirFirst(d);
      AtFirst(d);
      var c, s, e := d[..k], d[k], d[k + 1..];
      FrontBehind(e, r);
      FrontComponent(c, s, e);
      FrontComponent(c, s, e + r);
      Assoc(c + [s], e, r);
      Assoc([c], Front(e), Front(r));
    }
  }

  // The last component is what follows the last separator.
  lemma {:induction false} LastMeans(path: string)
    ensures NoSep(LastOf(path)) && exists d :: EndsDir(d) && path == d + LastOf(path)
    decreases |path|
  {
    var k := FirstSep(path);
    if k == |path| {
      assert path[..k] == path;
      FrontLast(path);
      assert EndsDir("") && path == "" + LastOf(path);
    } else {
      AtFirst(path);
      var c, s, r := path[..k], path[k], path[k + 1..];
      hide LastOf, NoSep;
      LastMeans(r);
      FrontComponent(c, s, r);
      var d :| EndsDir(d) && r == d + LastOf(r);
      assert EndsDir(c + [s] + d);
      Assoc(c + [s], d, LastOf(r));
    }
  }

  lemma {:induction false} EnterJoin(stack: seq<string>, cs: seq<string>, ds: seq<string>)
    ensures EnterAll(stack, cs + ds) == EnterAll(EnterAll(stack, cs), ds)
    decreases |cs|
  {
    if cs == [] {
      assert cs + ds == ds;
    } else {
      assert (cs + ds)[1..] == cs[1..] + ds;
      EnterJoin(Enter(stack, cs[0]), cs[1..], ds);
    }
  }

  // Components in the middle of a path that leave the stack as it is might as well not be there.
  lemma Idle(d: string, m: string, r: string, ms: seq<string>)
    requires EndsDir(d) && Front(m + r) == ms + Front(r) && LastOf(m + r) == LastOf(r)
    requires EnterAll(EnterAll([], Front(d)), ms) == EnterAll([], Front(d))
    ensures Normal(d + m + r) == Normal(d + r)
  {
    hide Front, LastOf, EnterAll, Render, EndsDir;
    assert d + m + r == d + (m + r);
    FrontBehind(d, r);
    FrontBehind(d, m + r);
    EnterJoin([], Front(d), Front(r));
    EnterJoin([], Front(d), ms + Front(r));
    EnterJoin(EnterAll([], Front(d)), ms, Front(r));
    NormalIs(d + r);
    NormalIs(d + (m + r));
  }

  lemma NormalIs(path: string)
    ensures Normal(path) == Render(EnterAll([], Front(path))) + LastOf(path)
  {
  }

  lemma EnterTwo(stack: seq<string>, a: string, b: string)
    ensures EnterAll(stack, [a]) == Enter(stack, a)
    ensures EnterAll(stack, [a, b]) == Enter(Enter(stack, a), b)
  {
    assert [a, b][1..] == [b];
    assert EnterAll(Enter(stack, a), [b]) == EnterAll(Enter(Enter(stack, a), b), []);
  }

  // ".." takes the component in front of it away.
  lemma ParentLaw(d: string, c: string, s: char, t: char, r: string)
    requires EndsDir(d) && Proper(c) && IsSep(s) && IsSep(t)
    ensures Normal(d + (c + [s] + ".." + [t]) + r) == Normal(d + r)
  {
    var m, stack := c + [s] + ".." + [t], EnterAll([], Front(d));
    assert m + r == c + [s] + (".." + [t] + r);
    FrontComponent(c, s, ".." + [t] + r);
    FrontComponent("..", t, r);
    assert [c] + ([".."] + Front(r)) == [c, ".."] + Front(r);
    EnterTwo(stack, c, "..");
    assert Enter(Enter(stack, c), "..") == stack by {
      assert (stack + [c])[..|stack|] == stack;
    }
    hide Front, EnterAll, Normal;
    Idle(d, m, r, [c, ".."]);
  }

  // Nothing and "." do nothing.
  lemma SkipLaw(d: string, c: string, s: char, r: string)
    requires EndsDir(d) && (c == "" || c == ".") && IsSep(s)
    ensures Normal(d + (c + [s]) + r) == Normal(d + r)
  {
    FrontComponent(c, s, r);
    EnterTwo(EnterAll([], Front(d)), c, "");
    hide Front, EnterAll, Normal;
    Idle(d, c + [s], r, [c]);
  }

  // Nor does ".." in front of everything.
  lemma RootLaw(s: char, r: string)
    requires IsSep(s)
    ensures Normal(".." + [s] + r) == Normal(r)
  {
    FrontComponent("..", s, r);
    assert ([".."] + Front(r))[1..] == Front(r);
  }

  // An empty component, a "." or a ".." begins here, and a separator ends it.
  predicate Special(path: string, i: nat)
    requires i < |path|
  {
    || IsSep(path[i])
    || (i + 1 < |path| && path[i] == '.' && IsSep(path[i + 1]))
    || (i + 2 < |path| && path[i] == '.' && path[i + 1] == '.' && IsSep(path[i + 2]))
  }

  ghost predicate Clean(path: string) {
    forall i :: 0 <= i < |path| && (i == 0 || IsSep(path[i - 1])) ==> !Special(path, i)
  }

  function Slashed(path: string): string {
    seq(|path|, i requires 0 <= i < |path| => if path[i] == '\\' then '/' else path[i])
  }

  lemma SpecialFirst(c: string, s: char, r: string)
    requires NoSep(c) && IsSep(s)
    ensures Special(c + [s] + r, 0) <==> !Proper(c)
  {
    var path := c + [s] + r;
    assert path[|c|] == s && forall k :: 0 <= k < |c| ==> path[k] == c[k];
    if |c| == 1 {
      assert c == [c[0]];
    } else if |c| == 2 {
      assert c == [c[0], c[1]];
    }
  }

  lemma SpecialLater(c: string, s: char, r: string, k: nat)
    requires k < |r|
    ensures Special(c + [s] + r, |c| + 1 + k) <==> Special(r, k)
    ensures (c + [s] + r)[|c| + k] == if k == 0 then s else r[k - 1]
  {
    var path, j := c + [s] + r, |c| + 1 + k;
    assert path[j] == r[k];
    assert k + 1 < |r| ==> path[j + 1] == r[k + 1];
    assert k + 2 < |r| ==> path[j + 2] == r[k + 2];
  }

  lemma CleanParts(c: string, s: char, r: string)
    requires NoSep(c) && IsSep(s)
    ensures Clean(c + [s] + r) <==> Proper(c) && Clean(r)
  {
    var path := c + [s] + r;
    assert forall k :: 0 <= k < |c| ==> path[k] == c[k] && !IsSep(path[k]);
    hide Special, Proper, NoSep;
    SpecialFirst(c, s, r);
    forall k: nat | k < |r|
      ensures Special(path, |c| + 1 + k) <==> Special(r, k)
      ensures path[|c| + k] == if k == 0 then s else r[k - 1]
    {
      SpecialLater(c, s, r, k);
    }
    if Clean(path) {
      assert !Special(path, 0);
      forall k | 0 <= k < |r| && (k == 0 || IsSep(r[k - 1]))
        ensures !Special(r, k)
      {
        assert !Special(path, |c| + 1 + k);
      }
    }
    if Proper(c) && Clean(r) {
      forall i | 0 <= i < |path| && (i == 0 || IsSep(path[i - 1]))
        ensures !Special(path, i)
      {
        if i > 0 {
          var k := i - |c| - 1;
          assert path[|c| + k] == path[i - 1] && !Special(r, k);
        }
      }
    }
  }

  lemma SlashedParts(c: string, s: char, r: string)
    requires NoSep(c) && IsSep(s)
    ensures Slashed(c + [s] + r) == c + "/" + Slashed(r)
  {
    assert forall k :: 0 <= k < |c| ==> !IsSep(c[k]);
  }

  lemma ProperFront(c: string, cs: seq<string>)
    requires Proper(c) && AllProper(cs)
    ensures NoSep(c) && AllProper([c] + cs)
  {
  }

  lemma CleanStep(c: string, s: char, r: string)
    requires Proper(c) && IsSep(s) && AllProper(Front(r))
    ensures Normal(c + [s] + r) == c + "/" + Normal(r) && AllProper(Front(c + [s] + r))
  {
    ProperFront(c, Front(r));
    hide Render, Front, EnterAll, LastOf, Normal, Proper, NoSep, AllProper, IsSep;
    var front := [c] + Front(r);
    FrontComponent(c, s, r);
    EnterAllKeeps([], Front(r));
    EnterAllKeeps([], front);
    RenderFront(front);
    assert [] + front == front && [] + Front(r) == Front(r) && front[1..] == Front(r);
    NormalIs(c + [s] + r);
    NormalIs(r);
    Assoc(c + "/", Render(Front(r)), LastOf(r));
  }

  // Nothing of a clean path is dropped: it is its own normal form but for the kind of its separators.
  lemma {:induction false} CleanLaw(path: string)
    requires Clean(path)
    ensures Normal(path) == Slashed(path) && AllProper(Front(path))
    decreases |path|
  {
    var k := FirstSep(path);
    if k == |path| {
      assert path[..k] == path;
      FrontLast(path);
      NormalIs(path);
      assert Slashed(path) == path;
    } else {
      AtFirst(path);
      var c, s, r := path[..k], path[k], path[k + 1..];
      hide Normal, Front, Clean, Slashed, AllProper;
      CleanParts(c, s, r);
      CleanLaw(r);
      CleanStep(c, s, r);
      SlashedParts(c, s, r);
    }
  }

  // Every normal form is clean and has the separator '/' only.
  lemma NormalClean(path: string)
    ensures Clean(Normal(path)) && '\\' !in Normal(path)
  {
    SplitNoSep(path);
    EnterAllProper([], Front(path));
    RenderClean(EnterAll([], Front(path)), LastOf(path));
    NormalIs(path);
  }

  lemma {:induction false} RenderClean(stack: seq<string>, last: string)
    requires AllProper(stack) && NoSep(last)
    ensures Clean(Render(stack) + last) && '\\' !in Render(stack) + last
    decreases |stack|
  {
    if stack == [] {
      assert Render(stack) + last == last;
    } else {
      RenderFront(stack);
      var r := Render(stack[1..]) + last;
      assert Render(stack) + last == stack[0] + ['/'] + r;
      hide Render, Clean;
      RenderClean(stack[1..], last);
      CleanParts(stack[0], '/', r);
    }
  }

  // ---- The resolver ----

  // The buffer holds the stack and the component begun, and nothing behind them.
  ghost predicate Holds(b: string, len: nat, stack: seq<string>, cur: string) {
    && len <= |b| && b[..len] == Render(stack) + cur
    && (forall i :: len <= i < |b| ==> b[i] == '\0')
    && AllProper(stack) && NoSep(cur)
  }

  // With p characters read, the rest of the path completes the normal form.
  ghost predicate OnPath(path: string, p: nat, stack: seq<string>, cur: string) {
    && p <= |path| && NoSep(cur) && AllProper(stack)
    && Resume(stack, cur, path[p..]) == Normal(path)
    && LastResume(cur, path[p..]) == LastOf(path)
  }

  // Moreover a component begun with dots is not going to be one of the special ones.
  ghost predicate OnTrack(path: string, p: nat, stack: seq<string>, cur: string) {
    && OnPath(path, p, stack, cur)
    && (Dots(cur) ==> p < |path| && !IsSep(path[p]))
    && (cur == "." && p < |path| && path[p] == '.' ==> p + 1 < |path| && !IsSep(path[p + 1]))
  }

  lemma PushHolds(b: string, len: nat, stack: seq<string>, cur: string, c: char)
    requires Holds(b, len, stack, cur) && len < |b|
    ensures var d := b[len := c];
      && (!IsSep(c) ==> Holds(d, len + 1, stack, cur + [c]))
      && (c == '/' && Proper(cur) ==> Holds(d, len + 1, stack + [cur], ""))
  {
    var d := b[len := c];
    assert d[..len + 1] == b[..len] + [c];
    if c == '/' {
      RenderPush(stack, cur);
    }
  }

  lemma HoldsEnds(b: string, len: nat, stack: seq<string>, cur: string)
    requires Holds(b, len, stack, cur)
    ensures len <= |b| && len == |Render(stack)| + |cur|
    ensures len == 0 <==> stack == [] && cur == ""
    ensures len > 0 ==> (b[len - 1] == '/' <==> cur == "") && (IsSep(b[len - 1]) <==> cur == "")
    ensures NoSep(cur) && AllProper(stack)
  {
    RenderEnds(stack, cur);
    assert len > 0 ==> b[..len][len - 1] == b[len - 1];
  }

  // Taking one character off the component begun.
  lemma PopChar(b: string, len: nat, stack: seq<string>, c: string, j: nat)
    requires j < |c| && Holds(b, len + 1, stack, c[..j + 1])
    ensures Holds(b[len := '\0'], len, stack, c[..j])
  {
    var d := b[len := '\0'];
    assert d[..len] == b[..len + 1][..len];
    assert c[..j + 1] == c[..j] + [c[j]];
  }

  // Taking the separator off the last component reopens it.
  lemma PopSep(b: string, len: nat, stack: seq<string>)
    requires stack != [] && Holds(b, len + 1, stack, "")
    ensures Holds(b[len := '\0'], len, stack[..|stack| - 1], stack[|stack| - 1])
  {
    var d := b[len := '\0'];
    assert d[..len] == b[..len + 1][..len];
    assert b[..len + 1] == Render(stack[..|stack| - 1]) + stack[|stack| - 1] + "/";
  }

  // The ".." branch: the trailing separator, then back to the one before.
  method PopComponent(buff: array<char>, length: nat, ghost stack: seq<string>) returns (len: nat)
    requires Holds(buff[..], length, stack, "")
    modifies buff
    ensures len <= length && Holds(buff[..], len, Enter(stack, ".."), "")
  {
    hide Holds, Render, AllProper, NoSep;
    len := length;
    HoldsEnds(buff[..], len, stack, "");
    if len > 0 {
      ghost var below, c := stack[..|stack| - 1], stack[|stack| - 1];
      if buff[len - 1] == '/' {
        len := len - 1;
        PopSep(buff[..], len, stack);
        buff[len] := '\0';
      }
      ghost var j: nat := |c|;
      assert c[..j] == c;
      HoldsEnds(buff[..], len, below, c[..j]);
      while len > 0 && buff[len - 1] != '/'
        invariant j <= |c| && len <= length && len <= buff.Length && len == |Render(below)| + j
        invariant Holds(buff[..], len, below, c[..j])
        invariant len > 0 ==> (buff[len - 1] == '/' <==> c[..j] == "")
        invariant len == 0 ==> c[..j] == ""
        decreases len
      {
        len := len - 1;
        j := j - 1;
        PopChar(buff[..], len, below, c, j);
        buff[len] := '\0';
        HoldsEnds(buff[..], len, below, c[..j]);
      }
      assert c[..j] == "";
    }
  }

  // ---- Progress along the path ----

  lemma Suffix(path: string, p: nat)
    requires p < |path|
    ensures path[p..] != "" && path[p..][0] == path[p] && path[p..][1..] == path[p + 1..]
  {
  }

  lemma PathChar(path: string, p: nat, stack: seq<string>, cur: string)
    requires OnPath(path, p, stack, cur) && p < |path| && !IsSep(path[p])
    ensures OnPath(path, p + 1, stack, cur + [path[p]])
  {
    Suffix(path, p);
    ResumeChar(stack, cur, path[p..]);
    LastChar(cur, path[p..]);
  }

  lemma PathSep(path: string, p: nat, stack: seq<string>, cur: string)
    requires OnPath(path, p, stack, cur) && p < |path| && IsSep(path[p])
    ensures OnPath(path, p + 1, Enter(stack, cur), "")
  {
    Suffix(path, p);
    ResumeSep(stack, cur, path[p..]);
    LastChar(cur, path[p..]);
    EnterProper(stack, cur);
  }

  lemma PathEnd(path: string, stack: seq<string>, cur: string)
    requires OnPath(path, |path|, stack, cur)
    ensures cur == LastOf(path)
  {
    assert path[|path|..] == "";
    assert cur + "" == cur;
  }

  // A component "." or "..": behind another character it takes effect as a whole; at
  // the end it is what makes the path a special one.
  lemma TrackDots(path: string, p: nat, stack: seq<string>, two: bool)
    requires OnPath(path, p, stack, "") && p < |path| && path[p] == '.'
    requires two ==> p + 1 < |path| && path[p + 1] == '.'
    requires var q := p + (if two then 2 else 1); q == |path| || IsSep(path[q])
    ensures var q := p + (if two then 2 else 1);
      if q == |path| then Dots(LastOf(path)) else OnPath(path, q + 1, Enter(stack, if two then ".." else "."), "")
  {
    hide OnPath, Enter, LastOf;
    var q := p + (if two then 2 else 1);
    PathChar(path, p, stack, "");
    assert "" + [path[p]] == ".";
    if two {
      PathChar(path, p + 1, stack, ".");
      assert "." + [path[p + 1]] == "..";
    }
    var c := if two then ".." else ".";
    if q == |path| {
      PathEnd(path, stack, c);
    } else {
      PathSep(path, q, stack, c);
    }
  }

  // path_resolve with separator '/', for a buffer longer than the path.  When the last
  // component is "." or "..", the original steps over the terminator and goes on behind
  // it; `overrun` reports that point.
  method Resolve(buff: array<char>, path: string) returns (len: nat, overrun: bool)
    requires buff.Length > |path|
    modifies buff
    ensures overrun <==> Dots(LastOf(path))
    ensures !overrun ==> len <= |path| && buff[..len] == Normal(path)
    ensures !overrun ==> forall i :: len <= i < buff.Length ==> buff[i] == '\0'
  {
    hide Holds, OnPath, Render, AllProper, NoSep, Resume, Normal, LastOf, Proper, Enter;
    forall i | 0 <= i < buff.Length {
      buff[i] := '\0';
    }
    len, overrun := 0, false;
    var size := buff.Length;
    var p := 0;
    ghost var stack: seq<string>, cur: string := [], "";
    Begin(buff[..], path);
    while size > 0 && p < |path|
      invariant len <= p <= |path| && len + size == buff.Length && !overrun
      invariant Holds(buff[..], len, stack, cur) && OnTrack(path, p, stack, cur)
      decreases |path| - p
    {
      HoldsEnds(buff[..], len, stack, cur);
      if IsSep(path[p]) {
        PathSep(path, p, stack, cur);
        SepEffect(stack, cur);
        if len > 0 && buff[len - 1] != '/' {
          PushHolds(buff[..], len, stack, cur, '/');
          buff[len] := '/';
          len, size := len + 1, size - 1;
        }
        stack, cur := Enter(stack, cur), "";
        p := p + 1;
        continue;
      }
      if path[p] == '.' && (len == 0 || IsSep(buff[len - 1])) {
        if p + 1 == |path| || IsSep(path[p + 1]) {
          TrackDots(path, p, stack, false);
          if p + 1 == |path| {
            return len, true;
          }
          EnterDot(stack);
          p := p + 2;
          continue;
        }
        if path[p + 1] == '.' && (p + 2 == |path| || IsSep(path[p + 2])) {
          TrackDots(path, p, stack, true);
          var shorter := PopComponent(buff, len, stack);
          len, size := shorter, size + (len - shorter);
          if p + 2 == |path| {
            return len, true;
          }
          stack := Enter(stack, "..");
          p := p + 3;
          continue;
        }
      }
      PathChar(path, p, stack, cur);
      DotsGrow(cur, path[p]);
      PushHolds(buff[..], len, stack, cur, path[p]);
      buff[len] := path[p];
      len, size := len + 1, size - 1;
      cur := cur + [path[p]];
      p := p + 1;
    }
    PathEnd(path, stack, cur);
    Finish(buff[..], len, path, p, stack, cur);
  }

  // At a separator the component begun, which is not special, is complete.
  lemma SepEffect(stack: seq<string>, cur: string)
    requires NoSep(cur) && !Dots(cur)
    ensures cur == "" ==> Enter(stack, cur) == stack
    ensures cur != "" ==> Proper(cur) && Enter(stack, cur) == stack + [cur]
  {
  }

  lemma EnterDot(stack: seq<string>)
    ensures Enter(stack, ".") == stack
  {
  }

  lemma DotsGrow(cur: string, c: char)
    ensures cur + [c] == "." <==> cur == "" && c == '.'
    ensures cur + [c] == ".." <==> cur == "." && c == '.'
  {
    if cur + [c] == "." {
      assert (cur + [c])[0] == c && cur == "";
    }
    if cur + [c] == ".." {
      assert cur == (cur + [c])[..1] && c == (cur + [c])[1];
    }
  }

  lemma Begin(b: string, path: string)
    requires forall i :: 0 <= i < |b| ==> b[i] == '\0'
    ensures Holds(b, 0, [], "") && OnTrack(path, 0, [], "")
  {
    ResumeStart(path);
    assert path[0..] == path;
    var cs := Split(path);
    assert "" + cs[0] == cs[0];
  }

  lemma Finish(b: string, len: nat, path: string, p: nat, stack: seq<string>, cur: string)
    requires Holds(b, len, stack, cur) && OnTrack(path, p, stack, cur) && p == |path|
    ensures len <= |b| && b[..len] == Normal(path)
    ensures forall i :: len <= i < |b| ==> b[i] == '\0'
  {
    assert path[p..] == "";
    ResumeEnd(stack, cur);
  }
}
