/**
 * SealCommand.SanitizeArgs (seal/cli.go): reject an empty tree list, clean
 * every tree in place, report unreadable trees, then non-directories, then a
 * bad reader count, and finally drop trees that lie below another tree.
 *
 * os.Stat and path.Clean are inputs: `stat` says what os.Stat reports for a
 * tree, `clean` is path.Clean.
 */
module SealCli {
  import Text
  import SealTypes

  /** What os.Stat reports: an error, a file that is not a directory, or a directory. */
  datatype StatResult = StatError | NotADirectory | Directory

  /** The returned error, or the panic of the subtree filter. */
  datatype SanitizeOutcome = Ok | Failed(msg: string) | Panicked(msg: string)

  const NoTreesMsg := "Please provide at least one tree to work on"
  const UnreadablePrefix := "Coulnd't read at least one of the given trees to verify: "
  const NoDirectoryPrefix := "The following trees are no directory: "
  const NumReadersMsg := "--num-readers must not be smaller than 1"
  const NoValidTreeMsg := "Didn't find a single valid tree"

  /** The trees os.Stat cannot read, as given and in input order. */
  function Unreadable(ts: seq<string>, stat: string -> StatResult): seq<string>
    decreases |ts|
  {
    if ts == [] then []
    else
      var last := ts[|ts| - 1];
      Unreadable(ts[..|ts| - 1], stat) + (if stat(last) == StatError then [last] else [])
  }

  /** The trees that exist but are no directory, as given and in input order. */
  function NotDirectories(ts: seq<string>, stat: string -> StatResult): seq<string>
    decreases |ts|
  {
    if ts == [] then []
    else
      var last := ts[|ts| - 1];
      NotDirectories(ts[..|ts| - 1], stat) + (if stat(last) == NotADirectory then [last] else [])
  }

  /** Every tree replaced by its cleaned form at the same index. */
  function Cleaned(ts: seq<string>, clean: string -> string): (r: seq<string>)
    ensures |r| == |ts| && forall i :: 0 <= i < |ts| ==> r[i] == clean(ts[i])
  {
    seq(|ts|, i requires 0 <= i < |ts| => clean(ts[i]))
  }

  /** The inner loop of the subtree filter for ltree = ts[i], over rtree = ts[0..m):
      ts[i] once for every other rtree that is not a prefix of it. */
  function Row(ts: seq<string>, i: int, m: int): seq<string>
    requires 0 <= i < |ts| && 0 <= m <= |ts|
    decreases m
  {
    if m == 0 then []
    else Row(ts, i, m - 1) + (if m - 1 == i || Text.HasPrefix(ts[i], ts[m - 1]) then [] else [ts[i]])
  }

  /** The outer loop of the subtree filter over ltree = ts[0..n). */
  function Rows(ts: seq<string>, n: int): seq<string>
    requires 0 <= n <= |ts|
    decreases n
  {
    if n == 0 then [] else Rows(ts, n - 1) + Row(ts, n - 1, |ts|)
  }

  /** The subtree filter as written. */
  function SubtreeFilter(ts: seq<string>): seq<string> {
    Rows(ts, |ts|)
  }

  /** What SanitizeArgs returns and what it leaves in s.Trees. */
  function Sanitize(ts: seq<string>, nReaders: int, stat: string -> StatResult, clean: string -> string)
    : (r: (SanitizeOutcome, seq<string>))
    ensures ts == [] ==> r == (Failed(NoTreesMsg), [])
    ensures ts != [] && !r.0.Ok? ==> r.1 == Cleaned(ts, clean)
    ensures r.0.Ok? ==> Unreadable(ts, stat) == [] && NotDirectories(ts, stat) == [] && nReaders >= 1
    ensures r.0.Ok? ==> r.1 != [] && forall t :: t in r.1 ==> t in Cleaned(ts, clean)
    ensures ts != [] && Unreadable(ts, stat) == [] && NotDirectories(ts, stat) == [] && nReaders < 1 ==>
              r.0 == Failed(NumReadersMsg)
    ensures ts != [] && Unreadable(ts, stat) == [] && NotDirectories(ts, stat) == [] && nReaders >= 1 ==>
              (r.0.Panicked? <==> |ts| > 1 && SubtreeFilter(Cleaned(ts, clean)) == [])
    ensures r.0.Ok? <==> ts != [] && Unreadable(ts, stat) == [] && NotDirectories(ts, stat) == [] &&
                         nReaders >= 1 && (|ts| == 1 || SubtreeFilter(Cleaned(ts, clean)) != [])
    ensures r.0.Ok? ==> r.1 == if |ts| == 1 then Cleaned(ts, clean) else SubtreeFilter(Cleaned(ts, clean))
  {
    if ts == [] then (Failed(NoTreesMsg), ts)
    else
      var cleaned := Cleaned(ts, clean);
      var unreadable := Unreadable(ts, stat);
      var files := NotDirectories(ts, stat);
      if unreadable != [] then (Failed(UnreadablePrefix + Text.Join(unreadable, ", ")), cleaned)
      else if files != [] then (Failed(NoDirectoryPrefix + Text.Join(files, ", ")), cleaned)
      else if nReaders < 1 then (Failed(NumReadersMsg), cleaned)
      else if |cleaned| == 1 then (Ok, cleaned)
      else if SubtreeFilter(cleaned) == [] then (Panicked(NoValidTreeMsg), cleaned)
      else
        FilterOnlyInputs(cleaned);
        (Ok, SubtreeFilter(cleaned))
  }

  method SanitizeArgs(s: SealTypes.SealCommand, stat: string -> StatResult, clean: string -> string)
    returns (err: SanitizeOutcome)
    modifies s
    ensures (err, s.trees) == Sanitize(old(s.trees), old(s.nReaders), stat, clean)
    ensures s.nReaders == old(s.nReaders) && s.mode == old(s.mode) && s.nWriters == old(s.nWriters)
  {
    if |s.trees| == 0 {
      return Failed(NoTreesMsg);
    }
    var invalidTrees, noTrees := StatAndClean(s, stat, clean);
    if |invalidTrees| > 0 {
      return Failed(UnreadablePrefix + Text.Join(invalidTrees, ", "));
    }
    if |noTrees| > 0 {
      return Failed(NoDirectoryPrefix + Text.Join(noTrees, ", "));
    }
    if s.nReaders < 1 {
      return Failed(NumReadersMsg);
    }

    // a single tree needs no filtering; several are reduced by the subtree filter
    if |s.trees| > 1 {
      var validTrees := FilterSubtrees(s.trees);
      if |validTrees| == 0 {
        return Panicked(NoValidTreeMsg);
      }
      s.trees := validTrees;
    }
    return Ok;
  }

  /** The first loop of SanitizeArgs: stat every tree, collect the failures and
      replace the tree by its cleaned form in place. */
  method StatAndClean(s: SealTypes.SealCommand, stat: string -> StatResult, clean: string -> string)
    returns (invalidTrees: seq<string>, noTrees: seq<string>)
    modifies s
    ensures s.trees == Cleaned(old(s.trees), clean)
    ensures invalidTrees == Unreadable(old(s.trees), stat)
    ensures noTrees == NotDirectories(old(s.trees), stat)
    ensures s.nReaders == old(s.nReaders) && s.mode == old(s.mode) && s.nWriters == old(s.nWriters)
  {
    ghost var ts := s.trees;
    invalidTrees, noTrees := [], [];
    var i := 0;
    while i < |s.trees|
      invariant 0 <= i <= |s.trees| == |ts|
      invariant s.trees == Cleaned(ts[..i], clean) + ts[i..]
      invariant invalidTrees == Unreadable(ts[..i], stat)
      invariant noTrees == NotDirectories(ts[..i], stat)
      invariant s.nReaders == old(s.nReaders) && s.mode == old(s.mode) && s.nWriters == old(s.nWriters)
    {
      var tree := s.trees[i];
      assert tree == ts[i] && ts[..i + 1] == ts[..i] + [tree];
      if stat(tree) == StatError {
        invalidTrees := invalidTrees + [tree];
      } else if stat(tree) == NotADirectory {
        noTrees := noTrees + [tree];
      }
      CleanStep(ts, i, clean);
      s.trees := s.trees[i := clean(tree)];
      i := i + 1;
    }
    assert ts[..i] == ts;
  }

  /** Cleaning tree i in place extends the cleaned prefix by one. */
  lemma CleanStep(ts: seq<string>, i: int, clean: string -> string)
    requires 0 <= i < |ts|
    ensures (Cleaned(ts[..i], clean) + ts[i..])[i := clean(ts[i])] == Cleaned(ts[..i + 1], clean) + ts[i + 1..]
  {
    var a := (Cleaned(ts[..i], clean) + ts[i..])[i := clean(ts[i])];
    var b := Cleaned(ts[..i + 1], clean) + ts[i + 1..];
    assert |a| == |b|;
    forall k | 0 <= k < |a| ensures a[k] == b[k] {
      if k < i { assert a[k] == clean(ts[k]) == b[k]; }
    }
  }

  /** The nested loops of SanitizeArgs that collect the trees to keep. */
  method FilterSubtrees(trees: seq<string>) returns (validTrees: seq<string>)
    ensures validTrees == SubtreeFilter(trees)
  {
    validTrees := [];
    for l := 0 to |trees|
      invariant validTrees == Rows(trees, l)
    {
      for x := 0 to |trees|
        invariant validTrees == Rows(trees, l) + Row(trees, l, x)
      {
        if l == x || Text.HasPrefix(trees[l], trees[x]) {
          continue;
        }
        validTrees := validTrees + [trees[l]];
      }
    }
  }

  // ---------------------------------------------------------------------------
  // The subtree filter as written
  // ---------------------------------------------------------------------------

  /** The reported unreadable trees are exactly the inputs os.Stat fails on. */
  lemma {:induction false} UnreadableMembers(ts: seq<string>, stat: string -> StatResult, t: string)
    ensures t in Unreadable(ts, stat) <==> t in ts && stat(t) == StatError
    decreases |ts|
  {
    if ts != [] {
      UnreadableMembers(ts[..|ts| - 1], stat, t);
      assert ts == ts[..|ts| - 1] + [ts[|ts| - 1]];
    }
  }

  /** The reported non-directories are exactly the inputs that exist and are no directory. */
  lemma {:induction false} NotDirectoriesMembers(ts: seq<string>, stat: string -> StatResult, t: string)
    ensures t in NotDirectories(ts, stat) <==> t in ts && stat(t) == NotADirectory
    decreases |ts|
  {
    if ts != [] {
      NotDirectoriesMembers(ts[..|ts| - 1], stat, t);
      assert ts == ts[..|ts| - 1] + [ts[|ts| - 1]];
    }
  }

  /** Directories only: nothing to report. */
  lemma {:induction false} AllDirectories(ts: seq<string>, stat: string -> StatResult)
    requires forall i :: 0 <= i < |ts| ==> stat(ts[i]) == Directory
    ensures Unreadable(ts, stat) == [] && NotDirectories(ts, stat) == []
    decreases |ts|
  {
    if ts != [] {
      AllDirectories(ts[..|ts| - 1], stat);
    }
  }

  lemma DiffersAt(s: string, p: string, k: int)
    requires 0 <= k < |p| && k < |s| && s[k] != p[k]
    ensures !Text.HasPrefix(s, p) && !Within(s, p)
  {
  }

  lemma {:induction false} RowOnlyLtree(ts: seq<string>, i: int, m: int)
    requires 0 <= i < |ts| && 0 <= m <= |ts|
    ensures forall t :: t in Row(ts, i, m) ==> t == ts[i]
    decreases m
  {
    if m > 0 {
      RowOnlyLtree(ts, i, m - 1);
    }
  }

  /** The filter keeps nothing but input trees. */
  lemma {:induction false} FilterOnlyInputs(ts: seq<string>)
    ensures forall t :: t in SubtreeFilter(ts) ==> t in ts
  {
    RowsOnlyInputs(ts, |ts|);
  }

  lemma {:induction false} RowsOnlyInputs(ts: seq<string>, n: int)
    requires 0 <= n <= |ts|
    ensures forall t :: t in Rows(ts, n) ==> t in ts
    decreases n
  {
    if n > 0 {
      RowsOnlyInputs(ts, n - 1);
      RowOnlyLtree(ts, n - 1, |ts|);
    }
  }

  /** With two trees each survives unless the other is a prefix of it. */
  lemma TwoTrees(a: string, b: string)
    ensures SubtreeFilter([a, b]) ==
            (if Text.HasPrefix(a, b) then [] else [a]) + (if Text.HasPrefix(b, a) then [] else [b])
  {
    var ts := [a, b];
    assert Row(ts, 0, 2) == if Text.HasPrefix(a, b) then [] else [a];
    assert Row(ts, 1, 2) == if Text.HasPrefix(b, a) then [] else [b];
  }

  /** Of two trees where one is a string prefix of the other, only the shorter remains. */
  lemma PrefixPairKeepsShorter(a: string, b: string)
    requires Text.HasPrefix(b, a) && a != b
    ensures SubtreeFilter([a, b]) == [a]
    ensures SubtreeFilter([b, a]) == [a]
  {
    TwoTrees(a, b);
    TwoTrees(b, a);
  }

  /** A single readable directory is cleaned and kept; the filter is skipped. */
  lemma SingleTreeKept(t: string, nReaders: int, stat: string -> StatResult, clean: string -> string)
    requires stat(t) == Directory && nReaders >= 1
    ensures Sanitize([t], nReaders, stat, clean) == (Ok, [clean(t)])
  {
    AllDirectories([t], stat);
    assert Cleaned([t], clean) == [clean(t)];
  }

  /** Two identical trees filter each other out, and SanitizeArgs panics. */
  lemma IdenticalTreesPanic(t: string, nReaders: int, stat: string -> StatResult, clean: string -> string)
    requires stat(t) == Directory && nReaders >= 1
    ensures Sanitize([t, t], nReaders, stat, clean) == (Panicked(NoValidTreeMsg), [clean(t), clean(t)])
  {
    var c := Cleaned([t, t], clean);
    assert c == [clean(t), clean(t)];
    TwoTrees(clean(t), clean(t));
    AllDirectories([t, t], stat);
  }

  /** Unreadable trees are reported first, whatever else is wrong. */
  lemma UnreadableFirst(ts: seq<string>, nReaders: int, stat: string -> StatResult, clean: string -> string)
    requires Unreadable(ts, stat) != []
    ensures Sanitize(ts, nReaders, stat, clean) ==
            (Failed(UnreadablePrefix + Text.Join(Unreadable(ts, stat), ", ")), Cleaned(ts, clean))
  {
  }

  /** Non-directories come next, before the reader count. */
  lemma NotDirectoriesSecond(ts: seq<string>, nReaders: int, stat: string -> StatResult, clean: string -> string)
    requires Unreadable(ts, stat) == [] && NotDirectories(ts, stat) != []
    ensures Sanitize(ts, nReaders, stat, clean) ==
            (Failed(NoDirectoryPrefix + Text.Join(NotDirectories(ts, stat), ", ")), Cleaned(ts, clean))
  {
  }

  /** A tree nested in one tree but not in a third still survives, and
      unrelated trees are duplicated. */
  lemma NestedTreeSurvives()
    ensures SubtreeFilter(["/a", "/a/b", "/c"]) == ["/a", "/a", "/a/b", "/c", "/c"]
  {
    var ts := ["/a", "/a/b", "/c"];
    assert Text.HasPrefix(ts[1], ts[0]);
    DiffersAt(ts[0], ts[2], 1);
    DiffersAt(ts[1], ts[2], 1);
    DiffersAt(ts[2], ts[0], 1);
    DiffersAt(ts[2], ts[1], 1);
    assert Row(ts, 0, 3) == ["/a", "/a"];
    assert Row(ts, 1, 3) == ["/a/b"];
    assert Row(ts, 2, 3) == ["/c", "/c"];
  }

  /** A sibling whose name merely starts with another tree's name is dropped. */
  lemma SiblingDropped()
    ensures SubtreeFilter(["/a", "/ab"]) == ["/a"]
  {
    PrefixPairKeepsShorter("/a", "/ab");
  }

  // ---------------------------------------------------------------------------
  // The filter the comment describes: drop trees below another tree
  // ---------------------------------------------------------------------------

  /** Path `l` is the directory `r` or lies below it. */
  predicate Within(l: string, r: string) {
    Text.HasPrefix(l, r) && (|l| == |r| || (|r| > 0 && r[|r| - 1] == '/') || l[|r|] == '/')
  }

  lemma WithinTransitive(a: string, b: string, c: string)
    requires Within(a, b) && Within(b, c)
    ensures Within(a, c)
  {
    assert a[..|b|] == b && b[..|c|] == c;
    assert a[..|c|] == a[..|b|][..|c|];
    if |b| > |c| && !(|c| > 0 && c[|c| - 1] == '/') {
      assert b[|c|] == '/';
      assert a[|c|] == a[..|b|][|c|];
    }
  }

  /** Tree i is kept: it is the first copy of its name and lies below no other tree. */
  predicate Keeps(ts: seq<string>, i: int)
    requires 0 <= i < |ts|
  {
    forall x :: 0 <= x < |ts| ==> !(x < i && ts[x] == ts[i]) && !(ts[x] != ts[i] && Within(ts[i], ts[x]))
  }

  function KeptFrom(ts: seq<string>, i: int): seq<string>
    requires 0 <= i <= |ts|
    decreases |ts| - i
  {
    if i == |ts| then [] else (if Keeps(ts, i) then [ts[i]] else []) + KeptFrom(ts, i + 1)
  }

  /** The corrected filter: each tree that lies below no other tree, once, in input order. */
  function DropSubtrees(ts: seq<string>): seq<string> {
    KeptFrom(ts, 0)
  }

  lemma {:induction false} KeptFromMembers(ts: seq<string>, i: int, t: string)
    requires 0 <= i <= |ts|
    ensures t in KeptFrom(ts, i) <==> exists k :: i <= k < |ts| && Keeps(ts, k) && ts[k] == t
    decreases |ts| - i
  {
    if i < |ts| {
      KeptFromMembers(ts, i + 1, t);
    }
  }

  /** Every input tree is the kept tree itself or lies below a kept tree. */
  lemma {:induction false} DropSubtreesCovers(ts: seq<string>, i: int)
    requires 0 <= i < |ts|
    ensures exists t :: t in DropSubtrees(ts) && Within(ts[i], t)
    decreases |ts[i]|, i
  {
    if Keeps(ts, i) {
      KeptFromMembers(ts, 0, ts[i]);
      assert Within(ts[i], ts[i]);
    } else {
      var x :| 0 <= x < |ts| && ((x < i && ts[x] == ts[i]) || (ts[x] != ts[i] && Within(ts[i], ts[x])));
      if x < i && ts[x] == ts[i] {
        DropSubtreesCovers(ts, x);
      } else {
        assert |ts[x]| < |ts[i]| by {
          if |ts[x]| == |ts[i]| {
            assert ts[i][..|ts[x]|] == ts[i];
          }
        }
        DropSubtreesCovers(ts, x);
        var t :| t in DropSubtrees(ts) && Within(ts[x], t);
        WithinTransitive(ts[i], ts[x], t);
      }
    }
  }

  /** No kept tree lies below another input tree. */
  lemma DropSubtreesMinimal(ts: seq<string>, t: string, x: int)
    requires t in DropSubtrees(ts) && 0 <= x < |ts|
    ensures ts[x] == t || !Within(t, ts[x])
  {
    KeptFromMembers(ts, 0, t);
  }

  /** The kept trees are pairwise distinct. */
  lemma {:induction false} KeptFromDistinct(ts: seq<string>, i: int)
    requires 0 <= i <= |ts|
    ensures forall a, b :: 0 <= a < b < |KeptFrom(ts, i)| ==> KeptFrom(ts, i)[a] != KeptFrom(ts, i)[b]
    decreases |ts| - i
  {
    if i < |ts| {
      KeptFromDistinct(ts, i + 1);
      if Keeps(ts, i) {
        var rest := KeptFrom(ts, i + 1);
        forall k | i + 1 <= k < |ts| && Keeps(ts, k)
          ensures ts[k] != ts[i]
        {
          assert !(i < k && ts[i] == ts[k]);
        }
        KeptFromMembers(ts, i + 1, ts[i]);
        assert KeptFrom(ts, i) == [ts[i]] + rest;
      }
    }
  }

  /** For a non-empty list the corrected filter keeps at least one tree, so it never panics. */
  lemma DropSubtreesNonEmpty(ts: seq<string>)
    requires ts != []
    ensures DropSubtrees(ts) != []
  {
    DropSubtreesCovers(ts, 0);
  }

  /** The nested tree is dropped and each remaining tree is kept once. */
  lemma NestedTreeDropped()
    ensures DropSubtrees(["/a", "/a/b", "/c"]) == ["/a", "/c"]
  {
    var ts := ["/a", "/a/b", "/c"];
    assert Within(ts[1], ts[0]);
    assert !Within(ts[0], ts[1]);
    DiffersAt(ts[0], ts[2], 1);
    DiffersAt(ts[2], ts[0], 1);
    DiffersAt(ts[2], ts[1], 1);
    assert Keeps(ts, 0) && !Keeps(ts, 1) && Keeps(ts, 2);
    assert KeptFrom(ts, 2) == ["/c"];
  }

  /** A sibling that merely shares a name prefix is kept. */
  lemma SiblingKept()
    ensures DropSubtrees(["/a", "/ab"]) == ["/a", "/ab"]
  {
    var ts := ["/a", "/ab"];
    assert !Within(ts[1], ts[0]) by { assert ts[1][|ts[0]|] == 'b'; }
    assert !Within(ts[0], ts[1]);
    assert Keeps(ts, 0) && Keeps(ts, 1);
    assert KeptFrom(ts, 1) == ["/ab"];
  }
}
