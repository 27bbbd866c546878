/**
 * seal/agg.go: the index-file name and the pattern that recognises it,
 * writeIndex, and the two halves of Aggregate: the result handler that
 * groups results by root, and the finalizer that decides per tree whether
 * to roll back, write an index, or do nothing.
 *
 * The clock, path.Clean, the file system and the serializer are inputs;
 * what the file system does is recorded as a sequence of operations.
 */
module SealAgg {
  import opened Wrappers
  import Text
  import Api
  import SealTypes
  import GobCodec

  // ---------------------------------------------------------------------------
  // Index file names
  // ---------------------------------------------------------------------------

  /** The fields of time.Now() that the name uses. */
  datatype DateTime = DateTime(year: nat, month: nat, day: nat, hour: nat, minute: nat, second: nat)

  predicate InRange(t: DateTime) {
    t.year < 10000 && 1 <= t.month <= 12 && 1 <= t.day <= 31 &&
    t.hour < 24 && t.minute < 60 && t.second < 60
  }

  /** IndexBaseName_YYYY-MM-DD_HHMMSS.ext, every field zero-padded (%04d, %02d). */
  function IndexName(baseName: string, now: DateTime, ext: string): string {
    baseName + "_" + Text.ZeroPadded(now.year, 4) + "-" + Text.ZeroPadded(now.month, 2) + "-" +
    Text.ZeroPadded(now.day, 2) + "_" + Text.ZeroPadded(now.hour, 2) + Text.ZeroPadded(now.minute, 2) +
    Text.ZeroPadded(now.second, 2) + "." + ext
  }

  /** filepath.Join(tree, name): the non-empty elements joined by '/', then cleaned. */
  function JoinPath(tree: string, name: string, clean: string -> string): string {
    if tree == "" then clean(name) else clean(tree + "/" + name)
  }

  /** SealCommand.IndexPath at the time `now`. */
  function IndexPath(tree: string, baseName: string, now: DateTime, ext: string, clean: string -> string): string {
    JoinPath(tree, IndexName(baseName, now, ext), clean)
  }

  /** One position of a regular expression without repetition: a literal or \d. */
  datatype Atom = Lit(c: char) | Digit

  predicate AtomMatches(a: Atom, c: char) {
    match a
    case Lit(x) => c == x
    case Digit => Text.IsDigit(c)
  }

  predicate FullMatch(p: seq<Atom>, s: string) {
    |p| == |s| && forall i :: 0 <= i < |s| ==> AtomMatches(p[i], s[i])
  }

  predicate MatchesAt(p: seq<Atom>, s: string, k: int) {
    0 <= k <= |s| - |p| && FullMatch(p, s[k..k + |p|])
  }

  /** Go's regexp MatchString: the pattern matches somewhere in s. */
  predicate MatchesIn(p: seq<Atom>, s: string) {
    exists k :: 0 <= k <= |s| && MatchesAt(p, s, k)
  }

  function Lits(s: string): (p: seq<Atom>)
    ensures FullMatch(p, s)
  {
    seq(|s|, i requires 0 <= i < |s| => Lit(s[i]))
  }

  function Digits(n: nat): seq<Atom> {
    seq(n, _ => Digit)
  }

  /** reIsIndexPath: IndexBaseName_\d{4}-\d{2}-\d{2}_\d{2}\d{2}\d{2}\.ext */
  function IndexPattern(baseName: string, ext: string): seq<Atom> {
    Lits(baseName) + Lits("_") + Digits(4) + Lits("-") + Digits(2) + Lits("-") +
    Digits(2) + Lits("_") + Digits(2) + Digits(2) +
    Digits(2) + Lits(".") + Lits(ext)
  }

  lemma FullMatchConcat(p1: seq<Atom>, s1: string, p2: seq<Atom>, s2: string)
    requires FullMatch(p1, s1) && FullMatch(p2, s2)
    ensures FullMatch(p1 + p2, s1 + s2)
  {
  }

  lemma DigitsMatch(n: nat, w: nat)
    requires w >= 1 && n < Text.Pow10(w)
    ensures FullMatch(Digits(w), Text.ZeroPadded(n, w))
  {
    Text.ZeroPaddedWidth(n, w);
  }

  /** The generated name is exactly what reIsIndexPath describes. */
  lemma IndexNameMatches(baseName: string, now: DateTime, ext: string)
    requires InRange(now)
    ensures FullMatch(IndexPattern(baseName, ext), IndexName(baseName, now, ext))
  {
    assert Text.Pow10(2) == 100;
    assert Text.Pow10(4) == 10000;
    DigitsMatch(now.year, 4);
    DigitsMatch(now.month, 2);
    DigitsMatch(now.day, 2);
    DigitsMatch(now.hour, 2);
    DigitsMatch(now.minute, 2);
    DigitsMatch(now.second, 2);
    var y, mo, d := Text.ZeroPadded(now.year, 4), Text.ZeroPadded(now.month, 2), Text.ZeroPadded(now.day, 2);
    var h, mi, s := Text.ZeroPadded(now.hour, 2), Text.ZeroPadded(now.minute, 2), Text.ZeroPadded(now.second, 2);
    FullMatchConcat(Lits(baseName), baseName, Lits("_"), "_");
    var p, n := Lits(baseName) + Lits("_"), baseName + "_";
    FullMatchConcat(p, n, Digits(4), y);
    p, n := p + Digits(4), n + y;
    FullMatchConcat(p, n, Lits("-"), "-");
    p, n := p + Lits("-"), n + "-";
    FullMatchConcat(p, n, Digits(2), mo);
    p, n := p + Digits(2), n + mo;
    FullMatchConcat(p, n, Lits("-"), "-");
    p, n := p + Lits("-"), n + "-";
    FullMatchConcat(p, n, Digits(2), d);
    p, n := p + Digits(2), n + d;
    FullMatchConcat(p, n, Lits("_"), "_");
    p, n := p + Lits("_"), n + "_";
    FullMatchConcat(p, n, Digits(2), h);
    p, n := p + Digits(2), n + h;
    FullMatchConcat(p, n, Digits(2), mi);
    p, n := p + Digits(2), n + mi;
    FullMatchConcat(p, n, Digits(2), s);
    p, n := p + Digits(2), n + s;
    FullMatchConcat(p, n, Lits("."), ".");
    p, n := p + Lits("."), n + ".";
    FullMatchConcat(p, n, Lits(ext), ext);
  }

  /** Any path that ends in a generated seal name is recognised. */
  lemma NameSuffixRecognised(dir: string, baseName: string, now: DateTime)
    requires InRange(now)
    ensures MatchesIn(IndexPattern(baseName, GobCodec.GobExtension),
                      dir + IndexName(baseName, now, GobCodec.GobExtension))
  {
    var p := IndexPattern(baseName, GobCodec.GobExtension);
    var name := IndexName(baseName, now, GobCodec.GobExtension);
    IndexNameMatches(baseName, now, GobCodec.GobExtension);
    var s := dir + name;
    assert s[|dir|..|dir| + |p|] == name;
    assert MatchesAt(p, s, |dir|);
  }

  /** path.Clean leaves the last element of the joined path alone, as it does
      for a name without separators that is neither "." nor "..". */
  predicate KeepsName(tree: string, name: string, clean: string -> string) {
    var j := JoinPath(tree, name, clean);
    |j| >= |name| && j[|j| - |name|..] == name
  }

  /** Every index path IndexPath produces is recognised by reIsIndexPath. */
  lemma IndexPathRecognised(tree: string, baseName: string, now: DateTime, clean: string -> string)
    requires InRange(now)
    requires KeepsName(tree, IndexName(baseName, now, GobCodec.GobExtension), clean)
    ensures MatchesIn(IndexPattern(baseName, GobCodec.GobExtension),
                      IndexPath(tree, baseName, now, GobCodec.GobExtension, clean))
  {
    var name := IndexName(baseName, now, GobCodec.GobExtension);
    var j := IndexPath(tree, baseName, now, GobCodec.GobExtension, clean);
    var dir := j[..|j| - |name|];
    assert j == dir + name;
    NameSuffixRecognised(dir, baseName, now);
  }

  // ---------------------------------------------------------------------------
  // File-system operations
  // ---------------------------------------------------------------------------

  /** The file-system calls the core makes: an index file that was created, and
      every removal that was attempted. */
  datatype FsOp =
    | CreateIndex(path: string)   // os.OpenFile(..., O_EXCL|O_CREATE|O_WRONLY)
    | RemoveIndex(path: string, removed: bool)  // removal of a half-written index, and whether it worked
    | RemoveFile(path: string)    // rollback of a copied file
    | RemoveDir(path: string)     // rollback of a parent directory

  /** The index files present after the operations. */
  function IndexFiles(ops: seq<FsOp>): set<string>
    decreases |ops|
  {
    if ops == [] then {}
    else
      var rest := IndexFiles(ops[..|ops| - 1]);
      match ops[|ops| - 1]
      case CreateIndex(p) => rest + {p}
      case RemoveIndex(p, removed) => if removed then rest - {p} else rest
      case _ => rest
  }

  // ---------------------------------------------------------------------------
  // writeIndex
  // ---------------------------------------------------------------------------

  datatype Entry = Entry(info: Api.FileInfo, err: Option<Api.Failure>)

  datatype IndexOutcome = Written(path: string) | WriteFailed(err: Api.Failure)

  const NoPathsMsg := "No paths provided - cannot write seal for nothing"

  /** writeIndex: `openErr` is what os.OpenFile reports for the new index path,
      `serializeErr` what Gob.Serialize returns, and `removeErr` what the
      unchecked os.Remove of a half-written index would report. */
  function WriteIndex(paths: seq<Entry>, indexPath: string, openErr: Option<Api.Failure>,
                      serializeErr: Option<Api.Failure>, removeErr: Option<Api.Failure>)
    : (r: (IndexOutcome, seq<FsOp>))
    ensures paths == [] ==> r == (WriteFailed(Api.Failure(NoPathsMsg, false)), [])
    ensures r.0.Written? <==> paths != [] && openErr.None? && serializeErr.None?
    ensures r.0.Written? ==> r.0.path == indexPath && IndexFiles(r.1) == {indexPath}
    ensures paths != [] && openErr.Some? ==> r == (WriteFailed(openErr.value), [])
    ensures r.0.WriteFailed? && paths != [] && openErr.None? ==> r.0.err == serializeErr.value
    ensures r.0.WriteFailed? ==>
              IndexFiles(r.1) == if paths != [] && openErr.None? && removeErr.Some? then {indexPath} else {}
  {
    if |paths| == 0 then (WriteFailed(Api.Failure(NoPathsMsg, false)), [])
    else if openErr.Some? then (WriteFailed(openErr.value), [])
    else if serializeErr.Some? then
      var ops := [CreateIndex(indexPath), RemoveIndex(indexPath, removeErr.None?)];
      assert ops[..1] == [CreateIndex(indexPath)] && ops[..1][..0] == [];
      assert IndexFiles(ops[..1]) == {indexPath};
      (WriteFailed(serializeErr.value), ops)
    else (Written(indexPath), [CreateIndex(indexPath)])
  }

  // ---------------------------------------------------------------------------
  // resultHandler
  // ---------------------------------------------------------------------------

  function Lookup(m: map<string, seq<Entry>>, root: string): seq<Entry> {
    if root in m then m[root] else []
  }

  /** The map after recording r: one more entry at the end of r's root, nothing else changed. */
  function Recorded(m: map<string, seq<Entry>>, r: SealTypes.SealResult): (m': map<string, seq<Entry>>)
    ensures m'.Keys == m.Keys + {r.finfo.root}
    ensures m'[r.finfo.root] == Lookup(m, r.finfo.root) + [Entry(r.finfo, r.Error())]
    ensures forall k :: k in m && k != r.finfo.root ==> m'[k] == m[k]
  {
    m[r.finfo.root := Lookup(m, r.finfo.root) + [Entry(r.finfo, r.Error())]]
  }

  /** The result the handler forwards. */
  function Handled(r: SealTypes.SealResult): (h: SealTypes.SealResult)
    ensures r.err.Some? ==> h == r
    ensures h == r.(msg := h.msg)
    ensures r.err.None? && r.source == "" ==> h.msg == "DONE ..." + r.finfo.relaPath
    ensures r.err.None? && r.source != "" ==> h.msg == "DONE CP " + r.source + " -> " + r.finfo.path
  {
    if r.Error().Some? then r
    else if |r.source| == 0 then r.(msg := "DONE ..." + r.finfo.relaPath)
    else r.(msg := "DONE CP " + r.source + " -> " + r.finfo.path)
  }

  // ---------------------------------------------------------------------------
  // finalizer: per-tree decisions
  // ---------------------------------------------------------------------------

  /** Some entry below the tree carries an error. */
  predicate Failed(es: seq<Entry>) {
    exists i :: 0 <= i < |es| && es[i].err.Some?
  }

  /** An entry whose error says the file existed before: it was not written by this run. */
  predicate Existed(e: Entry) {
    e.err.Some? && e.err.value.isExist
  }

  predicate LongestFirst(es: seq<Entry>) {
    forall i, j :: 0 <= i < j < |es| ==> |es[i].info.path| >= |es[j].info.path|
  }

  function Insert(e: Entry, es: seq<Entry>): (r: seq<Entry>)
    requires LongestFirst(es)
    ensures LongestFirst(r) && multiset(r) == multiset(es) + multiset{e}
    ensures forall x :: x in r ==> x == e || x in es
  {
    if es == [] || |e.info.path| >= |es[0].info.path| then [e] + es
    else
      var tail := Insert(e, es[1..]);
      assert es == [es[0]] + es[1..];
      ConsLongestFirst(es[0], tail);
      assert multiset([es[0]] + tail) == multiset{es[0]} + multiset(tail);
      assert forall x :: x in [es[0]] + tail ==> x == es[0] || x in tail;
      [es[0]] + tail
  }

  /** A path no shorter than any in a longest-first list may go in front of it. */
  lemma ConsLongestFirst(x: Entry, t: seq<Entry>)
    requires LongestFirst(t) && forall y :: y in t ==> |y.info.path| <= |x.info.path|
    ensures LongestFirst([x] + t)
  {
    forall i, j | 0 <= i < j < |[x] + t|
      ensures |([x] + t)[i].info.path| >= |([x] + t)[j].info.path|
    {
      if i > 0 {
        assert ([x] + t)[i] == t[i - 1] && ([x] + t)[j] == t[j - 1];
      } else {
        assert ([x] + t)[j] == t[j - 1];
        assert t[j - 1] in t;
      }
    }
  }

  /** sort.Sort(codec.ByLongestPathDescending(...)): longest paths first, same entries. */
  function SortLongestFirst(es: seq<Entry>): (r: seq<Entry>)
    ensures LongestFirst(r) && multiset(r) == multiset(es)
  {
    if es == [] then []
    else
      assert es == [es[0]] + es[1..];
      Insert(es[0], SortLongestFirst(es[1..]))
  }

  /** filepath.Dir without its final Clean: "." without a separator, "/" at the top. */
  function Dir(p: string): (d: string)
    ensures d != ""
    ensures |d| < |p| || d == "." || d == "/"
  {
    var i := LastSlash(p);
    if i < 0 then "." else if i == 0 then "/" else p[..i]
  }

  function LastSlash(p: string): (i: int)
    ensures -1 <= i < |p|
    decreases |p|
  {
    if p == [] then -1
    else if p[|p| - 1] == '/' then |p| - 1
    else LastSlash(p[..|p| - 1])
  }

  /** A ranking that Dir decreases except at its fixed points "." and "/". */
  function Rank(d: string): nat {
    if d == "." || d == "/" then 0 else |d| + 1
  }

  lemma DirRank(d: string)
    ensures Rank(Dir(d)) < Rank(d) || Dir(d) == d
  {
    if d == "/" {
      assert LastSlash(d) == 0;
    } else if d == "." {
      assert LastSlash(d[..0]) == -1;
    }
  }

  /** What the rollback of one tree has done to the file system so far: the
      paths it removed and the operations it attempted. */
  datatype FsState = FsState(removed: set<string>, ops: seq<FsOp>)

  /** Whether the file system lets os.Remove(p) succeed, given the paths this
      rollback has removed so far: a directory may refuse while a file is
      still inside it and give way once that file is gone. */
  type Remover = (set<string>, string) -> bool

  /** os.Remove(p) succeeds when p was not removed already and the file system allows it. */
  predicate CanRemove(fs: FsState, p: string, canRemove: Remover) {
    p !in fs.removed && canRemove(fs.removed, p)
  }

  /** The upward crawl after a removed file: remove directories until the tree
      is reached or a removal fails. */
  function Crawl(tree: string, dir: string, fs: FsState, canRemove: Remover): (fs': FsState)
    ensures fs.removed <= fs'.removed && |fs.ops| <= |fs'.ops|
    ensures forall k :: |fs.ops| <= k < |fs'.ops| ==> fs'.ops[k].RemoveDir?
    ensures fs'.ops[..|fs.ops|] == fs.ops
    decreases Rank(dir), if dir in fs.removed then 0 else 1
  {
    if dir == tree then fs
    else if !CanRemove(fs, dir, canRemove) then fs.(ops := fs.ops + [RemoveDir(dir)])
    else
      DirRank(dir);
      var next := Crawl(tree, Dir(dir), FsState(fs.removed + {dir}, fs.ops + [RemoveDir(dir)]), canRemove);
      assert next.ops[..|fs.ops|] == (fs.ops + [RemoveDir(dir)])[..|fs.ops|];
      next
  }

  /** The fixed result texts of the finalizer. */
  function RollbackMsg(tree: string): string { "Rolling back changes at copy destination '" + tree + "'" }
  function KeptMsg(path: string): string { "Won't remove existing file: '" + path + "'" }
  function RemovedMsg(path: string): string { "Removed '" + path + "'" }
  function WroteMsg(path: string): string { "Wrote seal at '" + path + "'" }
  function SummaryMsg(fileCount: nat, stats: string): string {
    "Sealed " + Text.Decimal(fileCount) + " files (" + stats + ")"
  }

  /** The rollback of one entry: its result, and the new file-system state. */
  function RollbackEntry(tree: string, e: Entry, fs: FsState, canRemove: Remover,
                         whyNot: string -> Api.Failure): (r: (Api.BasicResult, FsState))
    ensures Existed(e) ==> r.1 == fs && r.0 == Api.BasicResult(e.info, KeptMsg(e.info.path), Api.Info, None)
    ensures |r.1.ops| >= |fs.ops| && r.1.ops[..|fs.ops|] == fs.ops
    ensures !Existed(e) ==> |r.1.ops| > |fs.ops| && r.1.ops[|fs.ops|] == RemoveFile(e.info.path)
    ensures forall k :: |fs.ops| < k < |r.1.ops| ==> r.1.ops[k].RemoveDir?
    ensures r.0.err.None? <==> r.0.prio == Api.Info
  {
    var path := e.info.path;
    if Existed(e) then (Api.BasicResult(e.info, KeptMsg(path), Api.Info, None), fs)
    else if CanRemove(fs, path, canRemove) then
      var fs1 := FsState(fs.removed + {path}, fs.ops + [RemoveFile(path)]);
      var fs2 := Crawl(tree, Dir(path), fs1, canRemove);
      assert fs2.ops[..|fs.ops|] == fs1.ops[..|fs1.ops|][..|fs.ops|];
      (Api.BasicResult(e.info, RemovedMsg(path), Api.Info, None), fs2)
    else
      (Api.BasicResult(e.info, "", Api.Error, Some(whyNot(path))), FsState(fs.removed, fs.ops + [RemoveFile(path)]))
  }

  /** The rollback of the entries, in the given order. */
  function Rollback(tree: string, es: seq<Entry>, fs: FsState, canRemove: Remover,
                    whyNot: string -> Api.Failure): (r: (seq<Api.BasicResult>, FsState))
    ensures |r.0| == |es|
    decreases |es|
  {
    if es == [] then ([], fs)
    else
      var prev := Rollback(tree, es[..|es| - 1], fs, canRemove, whyNot);
      var step := RollbackEntry(tree, es[|es| - 1], prev.1, canRemove, whyNot);
      (prev.0 + [step.0], step.1)
  }

  /** The inputs the finalizer takes from outside: the naming of the index,
      the time.Now reading taken when a tree's index is named (each tree is
      visited once, so one reading per tree), path.Clean, the outcomes of
      opening, serializing and removing an index at a path, and whether (and
      why not) a path can be removed. */
  datatype Env = Env(
    baseName: string,
    now: string -> DateTime,
    clean: string -> string,
    openErr: string -> Option<Api.Failure>,
    serializeErr: string -> Option<Api.Failure>,
    removeErr: string -> Option<Api.Failure>,
    canRemove: Remover,
    whyNot: string -> Api.Failure)

  function TreeIndexPath(tree: string, env: Env): string {
    IndexPath(tree, env.baseName, env.now(tree), GobCodec.GobExtension, env.clean)
  }

  function TreeWriteIndex(tree: string, es: seq<Entry>, env: Env): (IndexOutcome, seq<FsOp>) {
    var p := TreeIndexPath(tree, env);
    WriteIndex(es, p, env.openErr(p), env.serializeErr(p), env.removeErr(p))
  }

  /** What the finalizer does for one tree. */
  datatype TreeOutcome = TreeOutcome(results: seq<Api.BasicResult>, fs: FsState, indexFailed: bool)

  function FinalizeTree(tree: string, es: seq<Entry>, nWriters: nat, cancelled: bool, env: Env, fs: FsState)
    : TreeOutcome
  {
    if es == [] then TreeOutcome([], fs, false)
    else if Failed(es) then
      if nWriters > 0 then
        var rb := Rollback(tree, SortLongestFirst(es), fs, env.canRemove, env.whyNot);
        TreeOutcome([Api.BasicResult(Api.NoFile, RollbackMsg(tree), Api.Info, None)] + rb.0, rb.1, false)
      else TreeOutcome([], fs, false)
    else if !cancelled then
      var w := TreeWriteIndex(tree, es, env);
      var fs' := fs.(ops := fs.ops + w.1);
      match w.0
      case WriteFailed(err) => TreeOutcome([Api.BasicResult(Api.NoFile, "", Api.Error, Some(err))], fs', true)
      case Written(p) =>
        TreeOutcome([Api.BasicResult(Api.FileInfo(p, "", "", -1), WroteMsg(p), Api.Info, None)], fs', false)
    else TreeOutcome([], fs, false)
  }

  /** The finalizer's loop over the trees in map order. */
  datatype Finalized = Finalized(results: seq<Api.BasicResult>, fs: FsState, indexErrors: nat)

  function FinalizeTrees(m: map<string, seq<Entry>>, order: seq<string>, nWriters: nat, cancelled: bool,
                         env: Env, fs: FsState): Finalized
    requires forall i :: 0 <= i < |order| ==> order[i] in m
    decreases |order|
  {
    if order == [] then Finalized([], fs, 0)
    else
      var prev := FinalizeTrees(m, order[..|order| - 1], nWriters, cancelled, env, fs);
      var t := order[|order| - 1];
      var step := FinalizeTree(t, m[t], nWriters, cancelled, env, prev.fs);
      Finalized(prev.results + step.results, step.fs, prev.indexErrors + (if step.indexFailed then 1 else 0))
  }

  /** The summary result the finalizer always sends last. */
  function Summary(fileCount: nat, stats: string): Api.BasicResult {
    Api.BasicResult(Api.NoFile, SummaryMsg(fileCount, stats), Api.Info, None)
  }

  // ---------------------------------------------------------------------------
  // The aggregation state and its methods
  // ---------------------------------------------------------------------------

  /** Aggregate's closure state: treePathsmap, and the writer count of the command. */
  class Aggregation {
    var treePaths: map<string, seq<Entry>>
    const nWriters: nat

    constructor (nWriters: nat)
      ensures treePaths == map[] && this.nWriters == nWriters
    {
      treePaths := map[];
      this.nWriters := nWriters;
    }

    /** resultHandler: record the result below its root, forward it, and tell
        whether it was a success. */
    method ResultHandler(r: SealTypes.SealResult) returns (ok: bool, sent: SealTypes.SealResult)
      modifies this
      ensures treePaths == Recorded(old(treePaths), r)
      ensures ok <==> r.err.None?
      ensures sent == Handled(r)
    {
      var root := r.finfo.root;
      var pathInfos := if root in treePaths then treePaths[root] else [];
      pathInfos := pathInfos + [Entry(r.finfo, r.Error())];
      treePaths := treePaths[root := pathInfos];

      var relaPath := r.finfo.relaPath;
      if r.Error().Some? {
        return false, r;
      }
      var hasError := false;
      sent := r;
      if |r.source| == 0 {
        sent := sent.(msg := "DONE ..." + relaPath);
      } else {
        sent := sent.(msg := "DONE CP " + r.source + " -> " + r.finfo.path);
      }
      ok := !hasError;
    }

    /** finalizer: each tree in map order, then the summary. `order` is the
        order in which the range loop visits the keys. */
    method Finalize(order: seq<string>, cancelled: bool, errCount: int, fileCount: nat, stats: string, env: Env)
      returns (results: seq<Api.BasicResult>, errCount': int, fs: FsState)
      requires forall t :: t in order <==> t in treePaths
      requires forall i, j :: 0 <= i < j < |order| ==> order[i] != order[j]
      ensures var f := FinalizeTrees(treePaths, order, nWriters, cancelled, env, FsState({}, []));
              results == f.results + [Summary(fileCount, stats)] &&
              errCount' == errCount + f.indexErrors && fs == f.fs
    {
      results, errCount', fs := [], errCount, FsState({}, []);
      for i := 0 to |order|
        invariant var f := FinalizeTrees(treePaths, order[..i], nWriters, cancelled, env, FsState({}, []));
                  results == f.results && errCount' == errCount + f.indexErrors && fs == f.fs
      {
        assert order[..i + 1][..i] == order[..i];
        var tree := order[i];
        var rs, indexFailed;
        rs, fs, indexFailed := FinalizeOne(tree, treePaths[tree], nWriters, cancelled, env, fs);
        results := results + rs;
        if indexFailed {
          errCount' := errCount' + 1;
        }
      }
      assert order[..|order|] == order;
      results := results + [Summary(fileCount, stats)];
    }
  }

  /** The loop body of the finalizer for one tree. */
  method FinalizeOne(tree: string, pathInfos: seq<Entry>, nWriters: nat, cancelled: bool, env: Env, fs: FsState)
    returns (results: seq<Api.BasicResult>, fs': FsState, indexFailed: bool)
    ensures TreeOutcome(results, fs', indexFailed) == FinalizeTree(tree, pathInfos, nWriters, cancelled, env, fs)
  {
    results, fs', indexFailed := [], fs, false;
    if |pathInfos| == 0 {
      return;
    }
    var foundError := HasError(pathInfos);
    if foundError {
      if nWriters > 0 {
        var sorted := SortLongestFirst(pathInfos);
        var rs;
        rs, fs' := RollbackAll(tree, sorted, fs, env.canRemove, env.whyNot);
        results := [Api.BasicResult(Api.NoFile, RollbackMsg(tree), Api.Info, None)] + rs;
      }
    } else if !cancelled {
      var w := TreeWriteIndex(tree, pathInfos, env);
      var index := w.0;
      fs' := fs.(ops := fs.ops + w.1);
      if index.WriteFailed? {
        indexFailed := true;
        results := [Api.BasicResult(Api.NoFile, "", Api.Error, Some(index.err))];
      } else {
        results := [Api.BasicResult(Api.FileInfo(index.path, "", "", -1), WroteMsg(index.path), Api.Info, None)];
      }
    }
  }

  /** The foundError loop. */
  method HasError(pathInfos: seq<Entry>) returns (foundError: bool)
    ensures foundError <==> Failed(pathInfos)
  {
    foundError := false;
    for i := 0 to |pathInfos|
      invariant !foundError && forall k :: 0 <= k < i ==> pathInfos[k].err.None?
    {
      if pathInfos[i].err.Some? {
        foundError := true;
        break;
      }
    }
  }

  /** The rollback loop over the sorted entries. */
  method RollbackAll(tree: string, pathInfos: seq<Entry>, fs: FsState, canRemove: Remover,
                     whyNot: string -> Api.Failure)
    returns (results: seq<Api.BasicResult>, fs': FsState)
    ensures (results, fs') == Rollback(tree, pathInfos, fs, canRemove, whyNot)
  {
    results, fs' := [], fs;
    for i := 0 to |pathInfos|
      invariant (results, fs') == Rollback(tree, pathInfos[..i], fs, canRemove, whyNot)
    {
      assert pathInfos[..i + 1][..i] == pathInfos[..i];
      var sfi := pathInfos[i];
      var msg := "";
      var prio := Api.Error;
      var err := sfi.err;
      if err.Some? && err.value.isExist {
        msg := KeptMsg(sfi.info.path);
        prio := Api.Info;
        err := None;
      } else {
        var removable := CanRemove(fs', sfi.info.path, canRemove);
        fs' := fs'.(ops := fs'.ops + [RemoveFile(sfi.info.path)]);
        if removable {
          err := None;
          fs' := fs'.(removed := fs'.removed + {sfi.info.path});
          msg := RemovedMsg(sfi.info.path);
          prio := Api.Info;
          fs' := CrawlUp(tree, sfi.info.path, fs', canRemove);
        } else {
          err := Some(whyNot(sfi.info.path));
        }
      }
      results := results + [Api.BasicResult(sfi.info, msg, prio, err)];
    }
    assert pathInfos[..|pathInfos|] == pathInfos;
  }

  /** The upward directory walk after a removed file. */
  method CrawlUp(tree: string, path: string, fs: FsState, canRemove: Remover) returns (fs': FsState)
    ensures fs' == Crawl(tree, Dir(path), fs, canRemove)
  {
    fs' := fs;
    var dir := Dir(path);
    var derr := false;
    while dir != tree && !derr
      invariant !derr ==> Crawl(tree, dir, fs', canRemove) == Crawl(tree, Dir(path), fs, canRemove)
      invariant derr ==> fs' == Crawl(tree, Dir(path), fs, canRemove)
      decreases if derr then 0 else 1, Rank(dir), if dir in fs'.removed then 0 else 1
    {
      DirRank(dir);
      var ok := CanRemove(fs', dir, canRemove);
      fs' := fs'.(ops := fs'.ops + [RemoveDir(dir)]);
      if ok {
        fs' := fs'.(removed := fs'.removed + {dir});
      } else {
        derr := true;
      }
      dir := Dir(dir);
    }
  }

  // ---------------------------------------------------------------------------
  // Properties of the finalizer
  // ---------------------------------------------------------------------------

  function FileRemovals(ops: seq<FsOp>): seq<string>
    decreases |ops|
  {
    if ops == [] then []
    else FileRemovals(ops[..|ops| - 1]) + (if ops[|ops| - 1].RemoveFile? then [ops[|ops| - 1].path] else [])
  }

  /** The paths of the entries the rollback tries to remove, in order. */
  function Removable(es: seq<Entry>): seq<string>
    decreases |es|
  {
    if es == [] then []
    else Removable(es[..|es| - 1]) + (if Existed(es[|es| - 1]) then [] else [es[|es| - 1].info.path])
  }

  lemma {:induction false} FileRemovalsAppend(a: seq<FsOp>, b: seq<FsOp>)
    ensures FileRemovals(a + b) == FileRemovals(a) + FileRemovals(b)
    decreases |b|
  {
    if b == [] {
      assert a + b == a;
    } else {
      FileRemovalsAppend(a, b[..|b| - 1]);
      assert (a + b)[..|a + b| - 1] == a + b[..|b| - 1];
    }
  }

  lemma {:induction false} NoFileRemovals(ops: seq<FsOp>)
    requires forall k :: 0 <= k < |ops| ==> ops[k].RemoveDir?
    ensures FileRemovals(ops) == []
    decreases |ops|
  {
    if ops != [] {
      NoFileRemovals(ops[..|ops| - 1]);
    }
  }

  lemma EntryRemovals(tree: string, e: Entry, fs: FsState, canRemove: Remover, whyNot: string -> Api.Failure)
    ensures var fs' := RollbackEntry(tree, e, fs, canRemove, whyNot).1;
            FileRemovals(fs'.ops) == FileRemovals(fs.ops) + (if Existed(e) then [] else [e.info.path])
  {
    var fs' := RollbackEntry(tree, e, fs, canRemove, whyNot).1;
    if !Existed(e) {
      var n := |fs.ops|;
      var tail := fs'.ops[n + 1..];
      assert fs'.ops == fs.ops + [RemoveFile(e.info.path)] + tail;
      NoFileRemovals(tail);
      FileRemovalsAppend(fs.ops + [RemoveFile(e.info.path)], tail);
      FileRemovalsAppend(fs.ops, [RemoveFile(e.info.path)]);
    }
  }

  /** The rollback attempts to remove exactly the entries that did not exist
      before, in the order it is given them. */
  lemma {:induction false} RollbackRemovals(tree: string, es: seq<Entry>, fs: FsState,
                                            canRemove: Remover, whyNot: string -> Api.Failure)
    ensures FileRemovals(Rollback(tree, es, fs, canRemove, whyNot).1.ops) == FileRemovals(fs.ops) + Removable(es)
    decreases |es|
  {
    if es != [] {
      var prev := Rollback(tree, es[..|es| - 1], fs, canRemove, whyNot);
      RollbackRemovals(tree, es[..|es| - 1], fs, canRemove, whyNot);
      EntryRemovals(tree, es[|es| - 1], prev.1, canRemove, whyNot);
    }
  }

  lemma {:induction false} RemovableFrom(es: seq<Entry>, p: string)
    ensures p in Removable(es) ==> exists e :: e in es && !Existed(e) && e.info.path == p
    decreases |es|
  {
    if es != [] {
      RemovableFrom(es[..|es| - 1], p);
      if p in Removable(es[..|es| - 1]) {
        var e :| e in es[..|es| - 1] && !Existed(e) && e.info.path == p;
        assert e in es;
      }
    }
  }

  lemma {:induction false} RemovableLongestFirst(es: seq<Entry>)
    requires LongestFirst(es)
    ensures forall i, j :: 0 <= i < j < |Removable(es)| ==> |Removable(es)[i]| >= |Removable(es)[j]|
    ensures es != [] ==> forall i :: 0 <= i < |Removable(es)| ==> |Removable(es)[i]| >= |es[|es| - 1].info.path|
    decreases |es|
  {
    if es != [] {
      var init := es[..|es| - 1];
      RemovableLongestFirst(init);
      if init != [] {
        assert |init[|init| - 1].info.path| >= |es[|es| - 1].info.path|;
      }
    }
  }

  /** Rollback removes files longest path first, and never one that existed before this run. */
  lemma RollbackOrder(tree: string, es: seq<Entry>, nWriters: nat, cancelled: bool, env: Env, fs: FsState)
    requires Failed(es) && nWriters > 0
    ensures var r := FinalizeTree(tree, es, nWriters, cancelled, env, fs);
            var rm := Removable(SortLongestFirst(es));
            FileRemovals(r.fs.ops) == FileRemovals(fs.ops) + rm &&
            (forall i, j :: 0 <= i < j < |rm| ==> |rm[i]| >= |rm[j]|) &&
            (forall p :: p in rm ==> exists e :: e in es && !Existed(e) && e.info.path == p)
  {
    var sorted := SortLongestFirst(es);
    RollbackRemovals(tree, sorted, fs, env.canRemove, env.whyNot);
    var r := FinalizeTree(tree, es, nWriters, cancelled, env, fs);
    var rm := Removable(sorted);
    assert FileRemovals(r.fs.ops) == FileRemovals(fs.ops) + rm;
    RemovableLongestFirst(sorted);
    forall p | p in Removable(sorted)
      ensures exists e :: e in es && !Existed(e) && e.info.path == p
    {
      RemovableFrom(sorted, p);
      var e :| e in sorted && !Existed(e) && e.info.path == p;
      assert e in multiset(sorted);
    }
  }

  /** A failed tree never gets an index, does not count as an index error, and
      is left alone without writers. */
  lemma FailedTreeNotIndexed(tree: string, es: seq<Entry>, nWriters: nat, cancelled: bool, env: Env, fs: FsState)
    requires Failed(es)
    ensures var r := FinalizeTree(tree, es, nWriters, cancelled, env, fs);
            !r.indexFailed && IndexFiles(r.fs.ops) == IndexFiles(fs.ops) &&
            (nWriters == 0 ==> r == TreeOutcome([], fs, false))
  {
    if nWriters > 0 {
      RollbackKeepsIndexFiles(tree, SortLongestFirst(es), fs, env.canRemove, env.whyNot);
    }
  }

  /** An index is attempted exactly for a tree with entries, no failure, and no cancellation;
      it then yields a single result that is an error iff the index could not be written. */
  lemma IndexOnlyWhenClean(tree: string, es: seq<Entry>, nWriters: nat, cancelled: bool, env: Env, fs: FsState)
    ensures var r := FinalizeTree(tree, es, nWriters, cancelled, env, fs);
            (es != [] && !Failed(es) && !cancelled) ==>
              |r.results| == 1 && (r.indexFailed <==> r.results[0].err.Some?) &&
              (r.indexFailed <==> TreeWriteIndex(tree, es, env).0.WriteFailed?)
    ensures var r := FinalizeTree(tree, es, nWriters, cancelled, env, fs);
            (es == [] || cancelled) && !Failed(es) ==> r == TreeOutcome([], fs, false)
  {
  }

  lemma {:induction false} IndexFilesAppend(a: seq<FsOp>, b: seq<FsOp>)
    requires forall k :: 0 <= k < |b| ==> !b[k].CreateIndex? && !b[k].RemoveIndex?
    ensures IndexFiles(a + b) == IndexFiles(a)
    decreases |b|
  {
    if b == [] {
      assert a + b == a;
    } else {
      IndexFilesAppend(a, b[..|b| - 1]);
      assert (a + b)[..|a + b| - 1] == a + b[..|b| - 1];
      assert (a + b)[|a + b| - 1] == b[|b| - 1];
    }
  }

  /** A cancelled run writes no index and counts no index error. */
  lemma {:induction false} CancelledWritesNoIndex(m: map<string, seq<Entry>>, order: seq<string>, nWriters: nat,
                                                  env: Env, fs: FsState)
    requires forall i :: 0 <= i < |order| ==> order[i] in m
    ensures var f := FinalizeTrees(m, order, nWriters, true, env, fs);
            f.indexErrors == 0 && IndexFiles(f.fs.ops) == IndexFiles(fs.ops)
    decreases |order|
  {
    if order != [] {
      var prev := FinalizeTrees(m, order[..|order| - 1], nWriters, true, env, fs);
      CancelledWritesNoIndex(m, order[..|order| - 1], nWriters, env, fs);
      var t := order[|order| - 1];
      var step := FinalizeTree(t, m[t], nWriters, true, env, prev.fs);
      if Failed(m[t]) {
        FailedTreeNotIndexed(t, m[t], nWriters, true, env, prev.fs);
      }
      assert !step.indexFailed && IndexFiles(step.fs.ops) == IndexFiles(prev.fs.ops);
      assert FinalizeTrees(m, order, nWriters, true, env, fs) ==
             Finalized(prev.results + step.results, step.fs, prev.indexErrors);
    }
  }

  lemma {:induction false} RollbackKeepsIndexFiles(tree: string, es: seq<Entry>, fs: FsState,
                                                   canRemove: Remover, whyNot: string -> Api.Failure)
    ensures IndexFiles(Rollback(tree, es, fs, canRemove, whyNot).1.ops) == IndexFiles(fs.ops)
    decreases |es|
  {
    if es != [] {
      var prev := Rollback(tree, es[..|es| - 1], fs, canRemove, whyNot);
      RollbackKeepsIndexFiles(tree, es[..|es| - 1], fs, canRemove, whyNot);
      var next := RollbackEntry(tree, es[|es| - 1], prev.1, canRemove, whyNot).1;
      var n := |prev.1.ops|;
      assert next.ops == prev.1.ops + next.ops[n..];
      IndexFilesAppend(prev.1.ops, next.ops[n..]);
    }
  }

  /** Every index error counted comes from a tree, so the count grows by at most one per tree. */
  lemma {:induction false} IndexErrorsBounded(m: map<string, seq<Entry>>, order: seq<string>, nWriters: nat,
                                              cancelled: bool, env: Env, fs: FsState)
    requires forall i :: 0 <= i < |order| ==> order[i] in m
    ensures FinalizeTrees(m, order, nWriters, cancelled, env, fs).indexErrors <= |order|
    ensures (forall i :: 0 <= i < |order| ==> m[order[i]] == [] || Failed(m[order[i]])) ==>
            FinalizeTrees(m, order, nWriters, cancelled, env, fs).indexErrors == 0
    decreases |order|
  {
    if order != [] {
      IndexErrorsBounded(m, order[..|order| - 1], nWriters, cancelled, env, fs);
    }
  }
  lemma {:induction false} LastSlashOf(d: string, name: string)
    requires '/' !in name
    ensures LastSlash(d + "/" + name) == |d|
    decreases |name|
  {
    var p := d + "/" + name;
    if name == [] {
      assert p[|p| - 1] == '/';
    } else {
      assert p[..|p| - 1] == d + "/" + name[..|name| - 1];
      assert p[|p| - 1] == name[|name| - 1];
      LastSlashOf(d, name[..|name| - 1]);
    }
  }

  /** filepath.Dir drops the last element of a joined path. */
  lemma DirOf(d: string, name: string)
    requires d != [] && '/' !in name
    ensures Dir(d + "/" + name) == d
  {
    LastSlashOf(d, name);
    assert (d + "/" + name)[..|d|] == d;
  }

  /** The file system of the example below: both files can be removed, and a
      directory only once everything below it is gone. */
  predicate TwoFileFs(removed: set<string>, p: string) {
    p == "/t/x/d/bb" || p == "/t/x/d/a" ||
    (p == "/t/x/d" && "/t/x/d/bb" in removed && "/t/x/d/a" in removed) ||
    (p == "/t/x" && "/t/x/d" in removed)
  }

  const NewBb := Entry(Api.FileInfo("/t/x/d/bb", "x/d/bb", "/t", 1), None)
  const NewA := Entry(Api.FileInfo("/t/x/d/a", "x/d/a", "/t", 1), None)

  function PathFailure(p: string): Api.Failure { Api.Failure(p, false) }

  /** The parent directories along the example's paths. */
  lemma ExampleDirs()
    ensures Dir("/t/x/d/bb") == "/t/x/d" && Dir("/t/x/d/a") == "/t/x/d"
    ensures Dir("/t/x/d") == "/t/x" && Dir("/t/x") == "/t"
  {
    assert "/t/x/d/bb" == "/t/x/d" + "/" + "bb";
    DirOf("/t/x/d", "bb");
    assert "/t/x/d/a" == "/t/x/d" + "/" + "a";
    DirOf("/t/x/d", "a");
    assert "/t/x/d" == "/t/x" + "/" + "d";
    DirOf("/t/x", "d");
    assert "/t/x" == "/t" + "/" + "x";
    DirOf("/t", "x");
  }

  /** Removing "bb" first: the walk-up fails on "/t/x/d", which still holds "a". */
  lemma FirstWalkUpFails()
    ensures RollbackEntry("/t", NewBb, FsState({}, []), TwoFileFs, PathFailure).1 ==
            FsState({"/t/x/d/bb"}, [RemoveFile("/t/x/d/bb"), RemoveDir("/t/x/d")])
  {
    ExampleDirs();
  }

  /** With "/t/x/d" gone, "/t/x" gives way and the walk stops at the tree. */
  lemma CrawlFromX(fs: FsState)
    requires fs.removed == {"/t/x/d/bb", "/t/x/d/a", "/t/x/d"}
    ensures Crawl("/t", "/t/x", fs, TwoFileFs).ops == fs.ops + [RemoveDir("/t/x")]
  {
    ExampleDirs();
    assert CanRemove(fs, "/t/x", TwoFileFs);
    var top := FsState(fs.removed + {"/t/x"}, fs.ops + [RemoveDir("/t/x")]);
    assert Crawl("/t", "/t", top, TwoFileFs) == top;
  }

  /** With both files gone, "/t/x/d" gives way, and then "/t/x". */
  lemma CrawlFromD(fs: FsState)
    requires fs.removed == {"/t/x/d/bb", "/t/x/d/a"}
    ensures Crawl("/t", "/t/x/d", fs, TwoFileFs).ops == fs.ops + [RemoveDir("/t/x/d"), RemoveDir("/t/x")]
  {
    ExampleDirs();
    assert CanRemove(fs, "/t/x/d", TwoFileFs);
    var mid := FsState(fs.removed + {"/t/x/d"}, fs.ops + [RemoveDir("/t/x/d")]);
    CrawlFromX(mid);
    assert Crawl("/t", "/t/x/d", fs, TwoFileFs) == Crawl("/t", "/t/x", mid, TwoFileFs);
  }

  /** Removing "a" next: the walk-up removes "/t/x/d" and "/t/x", and stops at the tree. */
  lemma SecondWalkUpSucceeds(fs: FsState)
    requires fs.removed == {"/t/x/d/bb"}
    ensures RollbackEntry("/t", NewA, fs, TwoFileFs, PathFailure).1.ops ==
            fs.ops + [RemoveFile("/t/x/d/a"), RemoveDir("/t/x/d"), RemoveDir("/t/x")]
  {
    ExampleDirs();
    assert CanRemove(fs, "/t/x/d/a", TwoFileFs);
    var fs1 := FsState(fs.removed + {"/t/x/d/a"}, fs.ops + [RemoveFile("/t/x/d/a")]);
    CrawlFromD(fs1);
    assert RollbackEntry("/t", NewA, fs, TwoFileFs, PathFailure).1 == Crawl("/t", "/t/x/d", fs1, TwoFileFs);
  }

  /** Rolling back "/t/x/d/bb" and then "/t/x/d/a" below the tree "/t": a
      directory that refuses the first walk-up gives way to the second. */
  lemma DirectoryGivesWayLater()
    ensures Rollback("/t", [NewBb, NewA], FsState({}, []), TwoFileFs, PathFailure).1.ops ==
            [RemoveFile("/t/x/d/bb"), RemoveDir("/t/x/d"), RemoveFile("/t/x/d/a"),
             RemoveDir("/t/x/d"), RemoveDir("/t/x")]
  {
    RollbackTwo("/t", NewBb, NewA, FsState({}, []), TwoFileFs, PathFailure);
    FirstWalkUpFails();
    SecondWalkUpSucceeds(RollbackEntry("/t", NewBb, FsState({}, []), TwoFileFs, PathFailure).1);
  }

  /** The rollback of two entries is the rollback of the first, then of the second. */
  lemma RollbackTwo(tree: string, a: Entry, b: Entry, fs: FsState, canRemove: Remover,
                    whyNot: string -> Api.Failure)
    ensures Rollback(tree, [a, b], fs, canRemove, whyNot).1 ==
            RollbackEntry(tree, b, RollbackEntry(tree, a, fs, canRemove, whyNot).1, canRemove, whyNot).1
  {
    var es := [a, b];
    assert es[..1] == [a] && [a][..0] == [] && es[1] == b;
    assert Rollback(tree, [a], fs, canRemove, whyNot).1 == RollbackEntry(tree, a, fs, canRemove, whyNot).1;
  }
}
