/**
 * Go's `path` package, as far as `path.Join` needs it: `Clean` by the four
 * lexical rules of its documentation, over the `/`-separated elements of a path.
 */
module GoPath {

  import opened GoStrings

  /** Splits `s` at every `/`; `Split("a//b/") == ["a", "", "b", ""]`. */
  function Split(s: string): (parts: seq<string>)
    ensures |parts| >= 1
    ensures forall k :: 0 <= k < |parts| ==> '/' !in parts[k]
  {
    if |s| == 0 then [""]
    else if s[|s| - 1] == '/' then Split(s[..|s| - 1]) + [""]
    else
      var init := Split(s[..|s| - 1]);
      init[..|init| - 1] + [init[|init| - 1] + [s[|s| - 1]]]
  }

  /** Joins elements with `/` (the inverse of `Split`). */
  function JoinSlash(parts: seq<string>): string {
    if |parts| == 0 then ""
    else if |parts| == 1 then parts[0]
    else JoinSlash(parts[..|parts| - 1]) + "/" + parts[|parts| - 1]
  }

  /** An element that `Clean` keeps as it is: neither empty, nor `.`, nor `..`. */
  predicate IsName(seg: string) {
    seg != "" && seg != "." && seg != ".."
  }

  /**
   * One element of the left-to-right scan of `Clean`: empty elements (doubled
   * slashes) and `.` vanish; `..` removes the preceding non-`..` element, is
   * dropped at the root of a rooted path, and is kept otherwise.
   */
  function Step(kept: seq<string>, seg: string, rooted: bool): seq<string> {
    if seg == "" || seg == "." then kept
    else if seg == ".." then
      if |kept| > 0 && kept[|kept| - 1] != ".." then kept[..|kept| - 1]
      else if rooted then kept
      else kept + [".."]
    else kept + [seg]
  }

  function Reduce(segs: seq<string>, rooted: bool, kept: seq<string>): seq<string>
    decreases |segs|
  {
    if |segs| == 0 then kept else Reduce(segs[1..], rooted, Step(kept, segs[0], rooted))
  }

  /** `path.Clean`: the shortest lexically equivalent path; `"."` for an empty result. */
  function Clean(p: string): string {
    var rooted := |p| > 0 && p[0] == '/';
    var body := JoinSlash(Reduce(Split(p), rooted, []));
    if rooted then "/" + body
    else if body == "" then "."
    else body
  }

  /** `path.Join(a, b)`: empty elements are ignored, the rest joined by `/` and cleaned. */
  function Join(a: string, b: string): string {
    if a == "" && b == "" then ""
    else if a == "" then Clean(b)
    else if b == "" then Clean(a)
    else Clean(a + "/" + b)
  }

  // ---------------------------------------------------------------------------
  // Split

  lemma {:induction false} SplitNoSlash(s: string)
    requires '/' !in s
    ensures Split(s) == [s]
    decreases |s|
  {
    if |s| > 0 {
      SplitNoSlash(s[..|s| - 1]);
      assert s[..|s| - 1] + [s[|s| - 1]] == s;
    }
  }

  /** A trailing `/` adds an empty last element. */
  lemma SplitSlashEnd(s: string)
    ensures Split(s + "/") == Split(s) + [""]
  {
    var t := s + "/";
    assert t[..|t| - 1] == s;
  }

  /** Any other trailing character extends the last element. */
  lemma SplitCharEnd(s: string, c: char)
    requires c != '/'
    ensures var init := Split(s); Split(s + [c]) == init[..|init| - 1] + [init[|init| - 1] + [c]]
  {
    var t := s + [c];
    assert t[..|t| - 1] == s;
  }

  /** Replacing the last element of a concatenation replaces the last element of its right part. */
  lemma ReplaceLast<T>(left: seq<T>, right: seq<T>, x: T)
    requires |right| >= 1
    ensures var both := left + right; both[..|both| - 1] + [x] == left + (right[..|right| - 1] + [x])
  {
    var both := left + right;
    assert both[..|both| - 1] == left + right[..|right| - 1];
  }

  /** Splitting at a `/` splits the two sides independently. */
  lemma {:induction false} SplitAtSlash(a: string, b: string)
    ensures Split(a + "/" + b) == Split(a) + Split(b)
    decreases |b|
  {
    if |b| == 0 {
      assert a + "/" + b == a + "/";
      SplitSlashEnd(a);
    } else {
      var b', c := b[..|b| - 1], b[|b| - 1];
      var s' := a + "/" + b';
      assert b == b' + [c];
      assert a + "/" + b == s' + [c];
      SplitAtSlash(a, b');
      if c == '/' {
        assert [c] == "/";
        SplitSlashEnd(s');
        SplitSlashEnd(b');
      } else {
        SplitCharEnd(s', c);
        SplitCharEnd(b', c);
        var right := Split(b');
        ReplaceLast(Split(a), right, right[|right| - 1] + [c]);
      }
    }
  }

  /** Appending slash-free text extends the last element. */
  lemma {:induction false} SplitLast(a: string, b: string)
    requires '/' !in b
    ensures var p := Split(a + b); var q := Split(a);
      |p| == |q| && p[..|p| - 1] == q[..|q| - 1] && p[|p| - 1] == q[|q| - 1] + b
    decreases |b|
  {
    var s := a + b;
    if |b| == 0 {
      assert s == a;
    } else {
      var b' := b[..|b| - 1];
      assert s[..|s| - 1] == a + b';
      assert b[|b| - 1] in b;
      SplitLast(a, b');
      var q := Split(a);
      assert (q[|q| - 1] + b') + [b[|b| - 1]] == q[|q| - 1] + b
        by { assert b' + [b[|b| - 1]] == b; }
    }
  }

  /** Joining after appending an element is joining before, then `/` and the element. */
  lemma JoinSlashSnoc(init: seq<string>, last: string)
    requires |init| >= 1
    ensures JoinSlash(init + [last]) == JoinSlash(init) + "/" + last
  {
    var parts := init + [last];
    assert parts[..|parts| - 1] == init;
  }

  /** Extending the last element of a join extends the join. */
  lemma JoinSlashExtendLast(init: seq<string>, c: char)
    requires |init| >= 1
    ensures JoinSlash(init[..|init| - 1] + [init[|init| - 1] + [c]]) == JoinSlash(init) + [c]
  {
    var parts := init[..|init| - 1] + [init[|init| - 1] + [c]];
    if |init| > 1 {
      assert parts[..|parts| - 1] == init[..|init| - 1];
    }
  }

  /** `JoinSlash` undoes `Split`. */
  lemma {:induction false} JoinSplit(s: string)
    ensures JoinSlash(Split(s)) == s
    decreases |s|
  {
    if |s| > 0 {
      var s', c := s[..|s| - 1], s[|s| - 1];
      JoinSplit(s');
      assert s' + [c] == s;
      if c == '/' {
        assert [c] == "/";
        SplitSlashEnd(s');
        JoinSlashSnoc(Split(s'), "");
      } else {
        SplitCharEnd(s', c);
        JoinSlashExtendLast(Split(s'), c);
      }
    }
  }

  /** `Split` undoes `JoinSlash` on slash-free elements. */
  lemma {:induction false} SplitJoin(parts: seq<string>)
    requires |parts| >= 1
    requires forall k :: 0 <= k < |parts| ==> '/' !in parts[k]
    ensures Split(JoinSlash(parts)) == parts
    decreases |parts|
  {
    if |parts| == 1 {
      SplitNoSlash(parts[0]);
    } else {
      var init, last := parts[..|parts| - 1], parts[|parts| - 1];
      assert forall k :: 0 <= k < |init| ==> init[k] == parts[k];
      SplitJoin(init);
      SplitAtSlash(JoinSlash(init), last);
      SplitNoSlash(last);
      assert parts == init + [last];
    }
  }

  lemma {:induction false} JoinSlashAppend(xs: seq<string>, ys: seq<string>)
    requires |xs| >= 1 && |ys| >= 1
    ensures JoinSlash(xs + ys) == JoinSlash(xs) + "/" + JoinSlash(ys)
    decreases |ys|
  {
    var zs := xs + ys;
    if |ys| == 1 {
      assert zs[..|zs| - 1] == xs;
    } else {
      var ys' := ys[..|ys| - 1];
      assert zs[..|zs| - 1] == xs + ys';
      JoinSlashAppend(xs, ys');
    }
  }

  // ---------------------------------------------------------------------------
  // Clean

  /** The elements of `segs` that are names, in order. */
  function Names(segs: seq<string>): (r: seq<string>)
    ensures forall k :: 0 <= k < |r| ==> IsName(r[k])
  {
    if |segs| == 0 then []
    else (if IsName(segs[0]) then [segs[0]] else []) + Names(segs[1..])
  }

  lemma {:induction false} ReduceAppend(xs: seq<string>, ys: seq<string>, rooted: bool, kept: seq<string>)
    ensures Reduce(xs + ys, rooted, kept) == Reduce(ys, rooted, Reduce(xs, rooted, kept))
    decreases |xs|
  {
    if |xs| == 0 {
      assert xs + ys == ys;
    } else {
      assert (xs + ys)[0] == xs[0] && (xs + ys)[1..] == xs[1..] + ys;
      ReduceAppend(xs[1..], ys, rooted, Step(kept, xs[0], rooted));
    }
  }

  /** Without `..` elements the scan only drops empty and `.` elements. */
  lemma {:induction false} ReduceWithoutDotDot(segs: seq<string>, rooted: bool, kept: seq<string>)
    requires forall k :: 0 <= k < |segs| ==> segs[k] != ".."
    ensures Reduce(segs, rooted, kept) == kept + Names(segs)
    decreases |segs|
  {
    if |segs| > 0 {
      ReduceWithoutDotDot(segs[1..], rooted, Step(kept, segs[0], rooted));
    }
  }

  lemma {:induction false} NamesOfNames(segs: seq<string>)
    requires forall k :: 0 <= k < |segs| ==> IsName(segs[k])
    ensures Names(segs) == segs
    decreases |segs|
  {
    if |segs| > 0 {
      NamesOfNames(segs[1..]);
    }
  }

  lemma {:induction false} NamesAppend(xs: seq<string>, ys: seq<string>)
    ensures Names(xs + ys) == Names(xs) + Names(ys)
    decreases |xs|
  {
    if |xs| == 0 {
      assert xs + ys == ys;
    } else {
      assert (xs + ys)[0] == xs[0] && (xs + ys)[1..] == xs[1..] + ys;
      NamesAppend(xs[1..], ys);
    }
  }

  lemma EndsWith(a: string, b: string)
    ensures HasSuffix(a + b, b)
  {
    assert (a + b)[|a + b| - |b|..] == b;
  }

  /** A final name element survives the scan, after whatever the earlier elements left. */
  lemma ReduceKeepsLastName(segs: seq<string>, rooted: bool)
    requires |segs| >= 1 && IsName(segs[|segs| - 1])
    ensures Reduce(segs, rooted, []) == Reduce(segs[..|segs| - 1], rooted, []) + [segs[|segs| - 1]]
  {
    var init, last := segs[..|segs| - 1], segs[|segs| - 1];
    assert segs == init + [last];
    ReduceAppend(init, [last], rooted, []);
  }

  /** Joining elements that end in `last` gives `last`, or text ending in `/` + `last`. */
  lemma JoinEndsWithLast(kept: seq<string>, last: string)
    ensures var body := JoinSlash(kept + [last]);
      (body == last || HasSuffix(body, "/" + last)) && HasSuffix("/" + body, "/" + last)
  {
    var body := JoinSlash(kept + [last]);
    if |kept| == 0 {
      assert kept + [last] == [last];
      EndsWith("", "/" + last);
    } else {
      assert (kept + [last])[..|kept|] == kept;
      var front := JoinSlash(kept);
      assert body == front + ("/" + last);
      EndsWith(front, "/" + last);
      assert "/" + body == ("/" + front) + ("/" + last);
      EndsWith("/" + front, "/" + last);
    }
  }

  /** `Clean` keeps a final element that is a name: the cleaned path ends with it. */
  lemma CleanKeepsLastName(p: string)
    requires IsName(Split(p)[|Split(p)| - 1])
    ensures var last := Split(p)[|Split(p)| - 1];
      Clean(p) == last || HasSuffix(Clean(p), "/" + last)
  {
    var segs := Split(p);
    var rooted := |p| > 0 && p[0] == '/';
    ReduceKeepsLastName(segs, rooted);
    JoinEndsWithLast(Reduce(segs[..|segs| - 1], rooted, []), segs[|segs| - 1]);
  }

  /**
   * Joining a directory whose elements are names with a relative path free of
   * `..` elements stays inside that directory.
   */
  lemma CleanStaysUnder(dir: string, rest: string)
    requires dir != "" && dir[0] != '/'
    requires forall k :: 0 <= k < |Split(dir)| ==> IsName(Split(dir)[k])
    requires forall k :: 0 <= k < |Split(rest)| ==> Split(rest)[k] != ".."
    requires IsName(Split(rest)[|Split(rest)| - 1])
    ensures HasPrefix(Clean(dir + "/" + rest), dir + "/")
  {
    var p := dir + "/" + rest;
    var ds, rs := Split(dir), Split(rest);
    SplitAtSlash(dir, rest);
    assert Split(p) == ds + rs;
    assert !(|p| > 0 && p[0] == '/');
    ReduceAppend(ds, rs, false, []);
    ReduceWithoutDotDot(ds, false, []);
    NamesOfNames(ds);
    assert Reduce(ds, false, []) == ds;
    ReduceWithoutDotDot(rs, false, ds);
    var tail := Names(rs);
    assert Reduce(Split(p), false, []) == ds + tail;
    var init := rs[..|rs| - 1];
    assert rs == init + [rs[|rs| - 1]];
    NamesAppend(init, [rs[|rs| - 1]]);
    assert Names([rs[|rs| - 1]]) == [rs[|rs| - 1]];
    assert |tail| >= 1;
    JoinSlashAppend(ds, tail);
    JoinSplit(dir);
    var body := dir + "/" + JoinSlash(tail);
    assert JoinSlash(ds + tail) == body;
    assert Clean(p) == body;
    assert body[..|dir + "/"|] == dir + "/";
  }
}
