/** Slash-separated hierarchical names, as handled by Python's `str.split("/")`
    and `"/".join(...)`, and the three name utilities of `Module`
    (`is_root`, `get_root_name`, `get_path`). */
module Paths {

  /** True iff no segment of `segs` contains a slash. */
  predicate SlashFree(segs: seq<string>)
  {
    forall i :: 0 <= i < |segs| ==> '/' !in segs[i]
  }

  /** `s.split("/")`: never empty (the empty string gives `[""]`), and no
      segment contains the separator. */
  function Split(s: string): (segs: seq<string>)
    ensures |segs| >= 1
    ensures SlashFree(segs)
    decreases |s|
  {
    if |s| == 0 then [""]
    else if s[0] == '/' then [""] + Split(s[1..])
    else
      var rest := Split(s[1..]);
      [[s[0]] + rest[0]] + rest[1..]
  }

  /** `"/".join(segs)`. */
  function Join(segs: seq<string>): string
  {
    if |segs| == 0 then ""
    else if |segs| == 1 then segs[0]
    else segs[0] + "/" + Join(segs[1..])
  }

  /** The first segment of a path, `path.split("/")[0]`. */
  function FirstSegment(s: string): string
  {
    Split(s)[0]
  }

  /** Everything after the first segment, `"/".join(path.split("/")[1:])`;
      the empty string when there is no slash. */
  function RestPath(s: string): string
  {
    Join(Split(s)[1..])
  }

  /** `is_root`: the name holds no slash. */
  predicate IsRoot(name: string)
    ensures IsRoot(name) <==> |Split(name)| == 1
  {
    FirstAndRest(name);
    '/' !in name
  }

  /** `get_root_name`: the first segment of the name. */
  function RootName(name: string): (root: string)
    ensures '/' !in root
    ensures IsRoot(name) ==> root == name
    ensures !IsRoot(name) ==> name == root + "/" + RestPath(name)
  {
    FirstAndRest(name);
    FirstSegment(name)
  }

  /** `get_path`: the name with its root segment stripped. */
  function RelPath(name: string): (path: string)
    ensures IsRoot(name) ==> path == ""
    ensures !IsRoot(name) ==> name == FirstSegment(name) + "/" + path
  {
    FirstAndRest(name);
    RestPath(name)
  }

  /** Joining a non-empty list appends one more segment after a slash. */
  lemma {:induction false} JoinSnoc(segs: seq<string>, x: string)
    requires |segs| >= 1
    ensures Join(segs + [x]) == Join(segs) + "/" + x
    decreases |segs|
  {
    if |segs| == 1 {
      assert segs + [x] == [segs[0], x];
    } else {
      assert (segs + [x])[1..] == segs[1..] + [x];
      JoinSnoc(segs[1..], x);
    }
  }

  /** Joining a concatenation of two non-empty lists puts one slash between
      their joins. */
  lemma {:induction false} JoinAppend(a: seq<string>, b: seq<string>)
    requires |a| >= 1 && |b| >= 1
    ensures Join(a + b) == Join(a) + "/" + Join(b)
    decreases |a|
  {
    if |a| == 1 {
      assert (a + b)[1..] == b;
    } else {
      assert (a + b)[1..] == a[1..] + b;
      JoinAppend(a[1..], b);
    }
  }

  /** Splitting then re-joining gives back the original string. */
  lemma {:induction false} JoinSplit(s: string)
    ensures Join(Split(s)) == s
    decreases |s|
  {
    if |s| == 0 {
    } else if s[0] == '/' {
      JoinSplit(s[1..]);
      assert Split(s) == [""] + Split(s[1..]);
      assert ([""] + Split(s[1..]))[1..] == Split(s[1..]);
    } else {
      var rest := Split(s[1..]);
      JoinSplit(s[1..]);
      var segs := [[s[0]] + rest[0]] + rest[1..];
      assert Split(s) == segs;
      if |rest| == 1 {
        assert Join(segs) == [s[0]] + rest[0];
      } else {
        assert segs[1..] == rest[1..];
        assert Join(rest) == rest[0] + "/" + Join(rest[1..]);
        assert s == [s[0]] + s[1..];
      }
    }
  }

  /** A string without a slash splits into itself alone. */
  lemma {:induction false} SplitNoSlash(s: string)
    requires '/' !in s
    ensures Split(s) == [s]
    decreases |s|
  {
    if |s| > 0 {
      assert '/' !in s[1..] by {
        forall i | 0 <= i < |s[1..]| ensures s[1..][i] != '/' {
          assert s[1..][i] == s[i + 1];
        }
      }
      SplitNoSlash(s[1..]);
      assert [s[0]] + s[1..] == s;
    }
  }

  /** Splitting `a + "/" + b`, where `a` has no slash, peels off `a` as the
      first segment and splits `b` for the rest. */
  lemma {:induction false} SplitCons(a: string, b: string)
    requires '/' !in a
    ensures Split(a + "/" + b) == [a] + Split(b)
    decreases |a|
  {
    var s := a + "/" + b;
    if |a| == 0 {
      assert s[0] == '/' && s[1..] == b;
    } else {
      assert s[0] == a[0] && s[0] != '/';
      assert s[1..] == a[1..] + "/" + b;
      assert '/' !in a[1..] by {
        forall i | 0 <= i < |a[1..]| ensures a[1..][i] != '/' {
          assert a[1..][i] == a[i + 1];
        }
      }
      SplitCons(a[1..], b);
      assert [a[0]] + a[1..] == a;
    }
  }

  /** Splitting the join of slash-free segments recovers the segments: the
      other half of the split/join round trip. */
  lemma {:induction false} SplitJoin(segs: seq<string>)
    requires |segs| >= 1 && SlashFree(segs)
    ensures Split(Join(segs)) == segs
    decreases |segs|
  {
    if |segs| == 1 {
      SplitNoSlash(segs[0]);
    } else {
      SplitJoin(segs[1..]);
      SplitCons(segs[0], Join(segs[1..]));
      assert [segs[0]] + segs[1..] == segs;
    }
  }

  /** For a first segment `a` with no slash, `a + "/" + b` has first segment
      `a` and remaining path exactly `b`, whatever `b` holds. */
  lemma SplitAtFirst(a: string, b: string)
    requires '/' !in a
    ensures FirstSegment(a + "/" + b) == a
    ensures RestPath(a + "/" + b) == b
  {
    SplitCons(a, b);
    assert Split(a + "/" + b)[1..] == Split(b);
    JoinSplit(b);
  }

  /** A path without a slash is its own first segment with an empty rest;
      any other path is its first segment, a slash, and its rest. */
  lemma {:induction false} FirstAndRest(s: string)
    ensures '/' !in s <==> |Split(s)| == 1
    ensures '/' !in s ==> FirstSegment(s) == s && RestPath(s) == ""
    ensures '/' in s ==> s == FirstSegment(s) + "/" + RestPath(s)
    ensures '/' !in FirstSegment(s)
  {
    JoinSplit(s);
    if '/' !in s {
      SplitNoSlash(s);
    } else {
      var segs := Split(s);
      assert segs == [segs[0]] + segs[1..];
      JoinAppend([segs[0]], segs[1..]);
    }
  }

  /** `is_root` holds exactly when the name is a single segment; a root is
      its own root name and has the empty path; any other name is its root
      name, a slash, and its path. */
  lemma NameUtilities(name: string)
    ensures IsRoot(name) <==> |Split(name)| == 1
    ensures IsRoot(name) ==> RootName(name) == name && RelPath(name) == ""
    ensures !IsRoot(name) ==> name == RootName(name) + "/" + RelPath(name)
    ensures '/' !in RootName(name)
  {
  }

  /** Appending `"/" + b` to a name never changes its root segment. */
  lemma {:induction false} RootNameOfExtension(a: string, b: string)
    ensures RootName(a + "/" + b) == RootName(a)
  {
    NameUtilities(a);
    if IsRoot(a) {
      SplitAtFirst(a, b);
    } else {
      var r, p := RootName(a), RelPath(a);
      assert a + "/" + b == r + "/" + (p + "/" + b);
      SplitAtFirst(r, p + "/" + b);
    }
  }
}
