/** Lexical path handling as Go's `path/filepath` does it on a Unix system
    (separator '/'; '\' is an ordinary character): `Clean`, `Join`, `Rel`,
    `Base` and `Ext`. A cleaned path is modelled as its elements. */
module FilePath {
  import opened Wrappers
  import opened Text

  const Sep := '/'

  /** A path as its elements; `rooted` when it starts with the separator. */
  datatype Path = Path(rooted: bool, elems: seq<string>)

  predicate IsElem(e: string) {
    e != "" && e != "." && Sep !in e
  }

  /** What cleaning produces: elements only, ".." only in a leading run, and
      none at all below the root. */
  predicate IsClean(p: Path) {
    && (forall k | 0 <= k < |p.elems| :: IsElem(p.elems[k]))
    && (forall i, j | 0 <= i < j < |p.elems| && p.elems[j] == ".." :: p.elems[i] == "..")
    && (p.rooted ==> forall k | 0 <= k < |p.elems| :: p.elems[k] != "..")
  }

  predicate NoParent(elems: seq<string>) {
    forall k | 0 <= k < |elems| :: elems[k] != ".."
  }

  /** One segment of the input: empty and "." segments vanish, ".." removes
      the element before it, or is dropped at the root, or kept when there
      is nothing to remove. */
  function Step(rooted: bool, acc: seq<string>, seg: string): seq<string> {
    if seg == "" || seg == "." then acc
    else if seg == ".." then
      if |acc| > 0 && acc[|acc| - 1] != ".." then acc[..|acc| - 1]
      else if rooted then acc
      else acc + [".."]
    else acc + [seg]
  }

  function Walk(rooted: bool, acc: seq<string>, segs: seq<string>): seq<string>
    decreases |segs|
  {
    if |segs| == 0 then acc else Walk(rooted, Step(rooted, acc, segs[0]), segs[1..])
  }

  lemma StepClean(rooted: bool, acc: seq<string>, seg: string)
    requires IsClean(Path(rooted, acc)) && Sep !in seg
    ensures IsClean(Path(rooted, Step(rooted, acc, seg)))
  {
  }

  lemma {:induction false} WalkClean(rooted: bool, acc: seq<string>, segs: seq<string>)
    requires IsClean(Path(rooted, acc))
    requires forall k | 0 <= k < |segs| :: Sep !in segs[k]
    ensures IsClean(Path(rooted, Walk(rooted, acc, segs)))
    decreases |segs|
  {
    if |segs| > 0 {
      StepClean(rooted, acc, segs[0]);
      WalkClean(rooted, Step(rooted, acc, segs[0]), segs[1..]);
    }
  }

  lemma {:induction false} WalkAppend(rooted: bool, acc: seq<string>, a: seq<string>, b: seq<string>)
    ensures Walk(rooted, acc, a + b) == Walk(rooted, Walk(rooted, acc, a), b)
    decreases |a|
  {
    if |a| > 0 {
      assert (a + b)[0] == a[0] && (a + b)[1..] == a[1..] + b;
      WalkAppend(rooted, Step(rooted, acc, a[0]), a[1..], b);
    } else {
      assert a + b == b;
    }
  }

  /** The elements of a path. */
  function Parse(p: string): (r: Path)
    ensures IsClean(r)
    ensures r.rooted <==> |p| > 0 && p[0] == Sep
  {
    var rooted := |p| > 0 && p[0] == Sep;
    WalkClean(rooted, [], Split(p, Sep));
    Path(rooted, Walk(rooted, [], Split(p, Sep)))
  }

  /** The text of a path; "." for no elements at all. */
  function Render(q: Path): string {
    if q.rooted then "/" + Join(q.elems, "/")
    else if |q.elems| == 0 then "."
    else Join(q.elems, "/")
  }

  /** `filepath.Clean`. */
  function Clean(p: string): (r: string)
    ensures r != ""
  {
    var q := Parse(p);
    if !q.rooted && |q.elems| > 0 then
      JoinHead(q.elems, "/");
      Render(q)
    else Render(q)
  }

  lemma JoinHead(parts: seq<string>, sep: string)
    requires |parts| > 0
    ensures |Join(parts, sep)| >= |parts[0]| && Join(parts, sep)[..|parts[0]|] == parts[0]
  {
    if |parts| > 1 {
      assert Join(parts, sep) == parts[0] + (sep + Join(parts[1..], sep));
    }
  }

  /** Walking segments that are already clean elements keeps them. */
  lemma {:induction false} WalkIdentity(rooted: bool, acc: seq<string>, segs: seq<string>)
    requires IsClean(Path(rooted, acc + segs))
    ensures Walk(rooted, acc, segs) == acc + segs
    decreases |segs|
  {
    if |segs| > 0 {
      var all := acc + segs;
      assert segs[0] == all[|acc|];
      if segs[0] == ".." {
        assert |acc| > 0 ==> acc[|acc| - 1] == all[|acc| - 1] == "..";
      }
      assert Step(rooted, acc, segs[0]) == acc + [segs[0]];
      assert (acc + [segs[0]]) + segs[1..] == all;
      WalkIdentity(rooted, acc + [segs[0]], segs[1..]);
    } else {
      assert acc + segs == acc;
    }
  }

  /** A cleaned path reads back as the same elements. */
  lemma ParseRender(q: Path)
    requires IsClean(q)
    ensures Parse(Render(q)) == q
  {
    if q.rooted {
      ParseRenderRooted(q);
    } else if |q.elems| == 0 {
      SplitNoSep(".", Sep);
      assert Walk(false, [], ["."]) == Walk(false, [], []);
    } else {
      ParseRenderRelative(q);
    }
  }

  lemma ParseRenderRooted(q: Path)
    requires IsClean(q) && q.rooted
    ensures Parse(Render(q)) == q
  {
    var j := Join(q.elems, "/");
    var s := Render(q);
    assert s == "" + [Sep] + j;
    SplitAppend("", j, Sep);
    assert Split(s, Sep) == [""] + Split(j, Sep);
    WalkAppend(true, [], [""], Split(j, Sep));
    if |q.elems| == 0 {
      assert Split(j, Sep) == [""];
    } else {
      SplitJoin(q.elems, Sep);
      assert "/" == [Sep];
      WalkIdentity(true, [], q.elems);
      assert [] + q.elems == q.elems;
    }
  }

  lemma ParseRenderRelative(q: Path)
    requires IsClean(q) && !q.rooted && |q.elems| > 0
    ensures Parse(Render(q)) == q
  {
    var s := Render(q);
    SplitJoin(q.elems, Sep);
    assert "/" == [Sep];
    JoinHead(q.elems, "/");
    assert s[0] == q.elems[0][0];
    WalkIdentity(false, [], q.elems);
    assert [] + q.elems == q.elems;
  }

  /** Cleaning keeps the parsed form. */
  lemma ParseClean(p: string)
    ensures Parse(Clean(p)) == Parse(p)
  {
    ParseRender(Parse(p));
  }

  /** Cleaning twice is cleaning once. */
  lemma CleanIdempotent(p: string)
    ensures Clean(Clean(p)) == Clean(p)
  {
    ParseRender(Parse(p));
  }

  /** Two paths clean to the same text exactly when they have the same
      elements. */
  lemma CleanSame(a: string, b: string)
    ensures Clean(a) == Clean(b) <==> Parse(a) == Parse(b)
  {
    ParseRender(Parse(a));
    ParseRender(Parse(b));
  }

  /** `filepath.Join` of two elements: the empty ones are ignored and the
      rest joined by the separator and cleaned. */
  function JoinPath(a: string, b: string): string {
    if a == "" then (if b == "" then "" else Clean(b))
    else Clean(a + "/" + b)
  }

  /** Joining under `a` walks the segments of `b` on from `a`'s elements. */
  lemma JoinElems(a: string, b: string)
    requires a != ""
    ensures Parse(JoinPath(a, b)) == Path(Parse(a).rooted, Walk(Parse(a).rooted, Parse(a).elems, Split(b, Sep)))
  {
    var ab := a + "/" + b;
    assert ab == a + [Sep] + b;
    assert ab[0] == a[0];
    SplitConcat(a, b, Sep);
    var r := Parse(a).rooted;
    WalkAppend(r, [], Split(a, Sep), Split(b, Sep));
    ParseRender(Parse(ab));
  }

  /** A leading ".." of a relative walk is never removed. */
  lemma {:induction false} ParentStays(cur: seq<string>, segs: seq<string>)
    requires |cur| > 0 && cur[0] == ".."
    ensures |Walk(false, cur, segs)| > 0 && Walk(false, cur, segs)[0] == ".."
    decreases |segs|
  {
    if |segs| > 0 {
      ParentStays(Step(false, cur, segs[0]), segs[1..]);
    }
  }

  /** A relative walk from nothing whose first segment is ".." keeps that
      ".." in front. */
  lemma ClimbFirst(cur: seq<string>, segs: seq<string>)
    ensures cur == [] && |segs| > 0 && segs[0] == ".." ==>
      |Walk(false, cur, segs)| > 0 && Walk(false, cur, segs)[0] == ".."
  {
    if cur == [] && |segs| > 0 && segs[0] == ".." {
      assert Step(false, cur, segs[0]) == [".."];
      ParentStays([".."], segs[1..]);
    }
  }

  /** A relative walk that never climbs out of its start gives the same
      elements below any other start. */
  lemma {:induction false} WalkShift(rooted: bool, acc: seq<string>, cur: seq<string>, segs: seq<string>)
    requires NoParent(cur) && NoParent(Walk(false, cur, segs))
    ensures Walk(rooted, acc + cur, segs) == acc + Walk(false, cur, segs)
    decreases |segs|
  {
    if |segs| == 0 {
    } else {
      var seg := segs[0];
      ClimbFirst(cur, segs);
      var next := Step(false, cur, seg);
      assert Step(rooted, acc + cur, seg) == acc + next by {
        if seg == ".." {
          assert (acc + cur)[|acc + cur| - 1] == cur[|cur| - 1];
          assert (acc + cur)[..|acc + cur| - 1] == acc + cur[..|cur| - 1];
        } else if seg != "" && seg != "." {
          assert (acc + cur) + [seg] == acc + (cur + [seg]);
        }
      }
      WalkShift(rooted, acc, next, segs[1..]);
    }
  }

  /** Joining a relative path that never climbs out puts its elements
      below `a`'s. */
  lemma JoinBelow(a: string, b: string)
    requires a != ""
    requires !Parse(b).rooted && NoParent(Parse(b).elems)
    ensures Parse(JoinPath(a, b)) == Path(Parse(a).rooted, Parse(a).elems + Parse(b).elems)
  {
    JoinElems(a, b);
    WalkShift(Parse(a).rooted, Parse(a).elems, [], Split(b, Sep));
    assert Parse(a).elems + [] == Parse(a).elems;
  }

  /** The length of the longest common prefix. */
  function CommonPrefix(a: seq<string>, b: seq<string>): (n: nat)
    ensures n <= |a| && n <= |b| && a[..n] == b[..n]
    ensures n < |a| && n < |b| ==> a[n] != b[n]
  {
    if |a| == 0 || |b| == 0 || a[0] != b[0] then 0
    else
      var n := CommonPrefix(a[1..], b[1..]);
      assert a[..n + 1] == [a[0]] + a[1..][..n];
      assert b[..n + 1] == [b[0]] + b[1..][..n];
      n + 1
  }

  function Ups(k: nat): (r: seq<string>)
    ensures |r| == k && forall i | 0 <= i < k :: r[i] == ".."
  {
    seq(k, _ => "..")
  }

  /** `filepath.Rel`: how to get from `basepath` to `targpath` by elements,
      climbing with ".." out of whatever `basepath` has beyond the common
      prefix; none when one path is rooted and the other not, or when the
      climb would have to undo a ".." of `basepath`. A target that cleans
      to "." keeps that "." as its one element (only the base's "." is
      dropped), so climbing to it ends in "/.". */
  function Rel(basepath: string, targpath: string): (r: Option<string>)
    ensures Parse(basepath).rooted != Parse(targpath).rooted ==> r.None?
  {
    var b, t := Parse(basepath), Parse(targpath);
    var te := TargetElems(t);
    if Clean(targpath) == Clean(basepath) then
      CleanSame(basepath, targpath);
      Some(".")
    else if b.rooted != t.rooted then None
    else
      var c := CommonPrefix(b.elems, te);
      if c < |b.elems| && b.elems[c] == ".." then None
      else if c < |b.elems| then Some(Join(Ups(|b.elems| - c) + te[c..], "/"))
      else Some(Join(te[c..], "/"))
  }

  /** The target's elements as `Rel` compares them: the empty relative
      path is the single element ".". */
  function TargetElems(t: Path): (r: seq<string>)
    ensures t.rooted || |t.elems| > 0 ==> r == t.elems
    ensures !t.rooted && |t.elems| == 0 ==> r == ["."]
  {
    if !t.rooted && |t.elems| == 0 then ["."] else t.elems
  }

  /** Climbing from a relative base to "." ends in "/.", one ".." per
      element of the base; a base that starts by climbing has no answer. */
  lemma RelToDot(base: string)
    requires !Parse(base).rooted && |Parse(base).elems| > 0
    ensures var n := |Parse(base).elems|;
      Rel(base, ".") == if Parse(base).elems[0] == ".." then None else Some(Join(Ups(n) + ["."], "/"))
  {
    var b := Parse(base);
    SplitNoSep(".", Sep);
    assert Walk(false, [], ["."]) == Walk(false, [], []);
    assert Parse(".") == Path(false, []);
    CleanSame(base, ".");
    var c := CommonPrefix(b.elems, ["."]);
    assert c == 0 by {
      assert IsElem(b.elems[0]);
    }
    assert ["."][0..] == ["."];
  }

  /** `x` is `base` or lies below it: same root, `base`'s elements first,
      and no ".." among the rest. */
  predicate Inside(x: string, base: string) {
    var px, pb := Parse(x), Parse(base);
    && px.rooted == pb.rooted
    && |pb.elems| <= |px.elems|
    && px.elems[..|pb.elems|] == pb.elems
    && NoParent(px.elems[|pb.elems|..])
  }

  /** When the base has elements beyond the common prefix that are not
      "..", `Rel`'s answer climbs. */
  lemma RelClimbs(base: string, targ: string)
    ensures var b, t := Parse(base), Parse(targ);
      var c := CommonPrefix(b.elems, t.elems);
      Rel(base, targ).Some? && Clean(targ) != Clean(base) && c < |b.elems| ==>
        HasPrefix(Rel(base, targ).value, "..")
  {
    var b, t := Parse(base), Parse(targ);
    var c := CommonPrefix(b.elems, t.elems);
    if Rel(base, targ).Some? && Clean(targ) != Clean(base) && c < |b.elems| {
      var parts := Ups(|b.elems| - c) + t.elems[c..];
      JoinHead(parts, "/");
    }
  }

  /** Two sequences that agree up to the end of both are equal. */
  lemma PrefixWhole(a: seq<string>, b: seq<string>, c: nat)
    requires c <= |a| && c <= |b| && a[..c] == b[..c]
    ensures c == |a| && c == |b| ==> a == b
  {
    if c == |a| && c == |b| {
      assert a == a[..c] && b == b[..c];
    }
  }

  /** Whenever `Rel` answers without climbing (its answer does not start
      with ".."), the target is inside the base. */
  lemma RelInside(base: string, targ: string)
    requires Rel(base, targ).Some? && !HasPrefix(Rel(base, targ).value, "..")
    ensures Inside(targ, base)
  {
    var b, t := Parse(base), Parse(targ);
    if Clean(targ) == Clean(base) {
      CleanSame(base, targ);
    } else {
      var c := CommonPrefix(b.elems, t.elems);
      RelClimbs(base, targ);
      PrefixWhole(b.elems, t.elems, c);
      CleanSame(base, targ);
      assert |b.elems| <= c < |t.elems|;
      var rest := t.elems[c..];
      JoinHead(rest, "/");
      assert rest[0] != "..";
    }
  }

  /** A climbing answer is exactly one that starts with "..": `Rel` of a
      target below the base never starts with "..", unless the first
      element below the base itself starts with "..". */
  lemma RelBelow(base: string, targ: string)
    requires Parse(targ).rooted == Parse(base).rooted
    requires |Parse(targ).elems| > |Parse(base).elems|
    requires Parse(targ).elems[..|Parse(base).elems|] == Parse(base).elems
    ensures Rel(base, targ) == Some(Join(Parse(targ).elems[|Parse(base).elems|..], "/"))
  {
    var b, t := Parse(base), Parse(targ);
    var n := |b.elems|;
    CleanSame(base, targ);
    var c := CommonPrefix(b.elems, t.elems);
    assert c == n;
  }

  /** `filepath.Base`: the last element, ignoring trailing separators; "."
      for the empty path and "/" for a path of separators only. */
  function Base(p: string): (r: string)
    ensures r != ""
  {
    if p == "" then "."
    else
      var s := TrimRightChar(p, Sep);
      if s == "" then "/"
      else
        AfterLast(s, Sep)
  }

  /** `filepath.Ext`: the suffix from the last '.' of the last element, or
      "" (see `ExtEmpty` for when). */
  function Ext(p: string): (r: string)
    ensures r == "" || (r[0] == '.' && |r| <= |p| && r == p[|p| - |r|..] && Sep !in r && '.' !in r[1..])
  {
    if |p| == 0 || p[|p| - 1] == Sep then ""
    else if p[|p| - 1] == '.' then "."
    else
      var e := Ext(p[..|p| - 1]);
      if e == "" then "" else e + [p[|p| - 1]]
  }

  /** The extension is empty exactly when the last element holds no '.'. */
  lemma {:induction false} ExtEmpty(p: string)
    ensures Ext(p) == "" <==> '.' !in AfterLast(p, Sep)
  {
    if |p| > 0 && p[|p| - 1] != Sep && p[|p| - 1] != '.' {
      var init := p[..|p| - 1];
      ExtEmpty(init);
      assert AfterLast(p, Sep) == AfterLast(init, Sep) + [p[|p| - 1]];
    }
  }

  /** A path ending in '.' has the extension ".". */
  lemma ExtDot(p: string)
    requires |p| > 0 && p[|p| - 1] == '.'
    ensures Ext(p) == "."
  {
  }

  /** A rune other than '.' and the separator extends a non-empty
      extension. */
  lemma ExtSnoc(p: string)
    requires |p| > 0 && p[|p| - 1] != '.' && p[|p| - 1] != Sep && Ext(p[..|p| - 1]) != ""
    ensures Ext(p) == Ext(p[..|p| - 1]) + [p[|p| - 1]]
  {
  }

  /** The extension is the suffix from a '.' that no later '.' or
      separator follows. */
  lemma {:induction false} ExtSuffix(p: string, i: nat)
    requires i < |p| && p[i] == '.'
    requires forall j | i < j < |p| :: p[j] != '.' && p[j] != Sep
    ensures Ext(p) == p[i..]
    decreases |p| - i
  {
    var n := |p|;
    if i == n - 1 {
      ExtDot(p);
    } else {
      var init := p[..n - 1];
      assert p[n - 1] != '.' && p[n - 1] != Sep;
      assert forall j | i < j < |init| :: init[j] == p[j];
      ExtSuffix(init, i);
      ExtSuffixStep(p, i);
    }
  }

  /** One more rune after an extension that starts at `i` keeps it
      starting at `i`. */
  lemma ExtSuffixStep(p: string, i: nat)
    requires i < |p| - 1 && p[|p| - 1] != '.' && p[|p| - 1] != Sep
    requires Ext(p[..|p| - 1]) == p[..|p| - 1][i..]
    ensures Ext(p) == p[i..]
  {
    var init := p[..|p| - 1];
    ExtSnoc(p);
    assert p[i..] == init[i..] + [p[|p| - 1]];
  }

  /** A single element, ".." included, is its own clean form and its own
      base name. */
  lemma OneElement(name: string)
    requires IsElem(name)
    ensures Clean(name) == name
    ensures Base(name) == name
  {
    var q := Path(false, [name]);
    assert Render(q) == name;
    ParseRender(q);
    AfterLastNone(name, Sep);
    assert TrimRightChar(name, Sep) == name;
  }

  /** "." is clean, and its own base name. */
  lemma DotElement()
    ensures Clean(".") == "." && Base(".") == "."
  {
    SplitNoSep(".", Sep);
    assert Walk(false, [], ["."]) == Walk(false, [], []);
    AfterLastNone(".", Sep);
    assert TrimRightChar(".", Sep) == ".";
  }

  lemma EmptyPath()
    ensures Parse("") == Path(false, [])
  {
    assert Split("", Sep) == [""];
    assert Walk(false, [], [""]) == Walk(false, [], []);
  }

  lemma ParseElement(name: string)
    requires IsElem(name)
    ensures Parse(name) == Path(false, [name])
  {
    var q := Path(false, [name]);
    assert Render(q) == name;
    ParseRender(q);
  }

  /** A plain element lies directly below any directory it is joined to. */
  lemma PlainName(dir: string, name: string)
    requires IsElem(name) && name != ".."
    ensures Parse(JoinPath(dir, name)) == Path(Parse(dir).rooted, Parse(dir).elems + [name])
  {
    ParseElement(name);
    if dir == "" {
      OneElement(name);
      EmptyPath();
      assert JoinPath(dir, name) == name;
    } else {
      JoinBelow(dir, name);
    }
  }
}
