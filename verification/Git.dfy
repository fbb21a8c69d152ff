/**
 * The Git objects that the integration lane talks about.
 *
 * An object id is a collision-free hash of a commit's content and parents, so a
 * commit is modelled by that content: two ids are equal exactly when the commits
 * are, and the history is acyclic because the type is inductive.
 */
module Git {
  import opened Options

  type Path = string
  type Blob = string
  type Ref = string
  type Tree = map<Path, Blob>

  datatype Commit = Commit(tree: Tree, parents: seq<Commit>, message: string)

  /** `git merge-base --is-ancestor a d` succeeds with a != d. */
  predicate Descends(d: Commit, a: Commit) {
    exists i | 0 <= i < |d.parents| :: d.parents[i] == a || Descends(d.parents[i], a)
  }

  predicate AtOrAfter(d: Commit, a: Commit) {
    d == a || Descends(d, a)
  }

  function Height(c: Commit): nat {
    HeightOf(c.parents)
  }

  function HeightOf(cs: seq<Commit>): nat {
    if cs == [] then 0
    else
      var h, rest := Height(cs[0]) + 1, HeightOf(cs[1..]);
      if h < rest then rest else h
  }

  lemma {:induction false} ParentIsLower(cs: seq<Commit>, i: nat)
    requires i < |cs|
    ensures Height(cs[i]) < HeightOf(cs)
  {
    if i > 0 {
      assert cs[i] == cs[1..][i - 1];
      ParentIsLower(cs[1..], i - 1);
    }
  }

  lemma {:induction false} DescendantIsHigher(d: Commit, a: Commit)
    requires Descends(d, a)
    ensures Height(a) < Height(d)
  {
    var i :| 0 <= i < |d.parents| && (d.parents[i] == a || Descends(d.parents[i], a));
    ParentIsLower(d.parents, i);
    if d.parents[i] != a {
      DescendantIsHigher(d.parents[i], a);
    }
  }

  /** History is a strict partial order: nothing descends from itself, and descent composes. */
  lemma {:induction false} DescentIsTransitive(d: Commit, b: Commit, a: Commit)
    requires Descends(d, b) && AtOrAfter(b, a)
    ensures Descends(d, a) && d != a
  {
    var i :| 0 <= i < |d.parents| && (d.parents[i] == b || Descends(d.parents[i], b));
    if d.parents[i] != b {
      DescentIsTransitive(d.parents[i], b, a);
    }
    DescendantIsHigher(d, a);
  }

  // ----- The registered root: what is checked out, staged and on disk -----

  datatype Head = OnBranch(ref: Ref) | Detached(at: Commit)

  /** Ignored files are invisible to every command used here and are not represented. */
  datatype Checkout = Checkout(head: Head, index: Tree, work: Tree)

  function At(t: Tree, p: Path): Option<Blob> {
    if p in t then Some(t[p]) else None
  }

  /** `git diff-index --cached base` is non-empty. */
  predicate Staged(c: Checkout, base: Tree) {
    c.index != base
  }

  /** `git diff-files` is non-empty. */
  predicate Unstaged(c: Checkout) {
    exists p | p in c.index :: At(c.work, p) != Some(c.index[p])
  }

  /** `git ls-files --others --exclude-standard` is non-empty. */
  predicate Untracked(c: Checkout) {
    exists p | p in c.work :: p !in c.index
  }

  predicate MatchesBase(c: Checkout, base: Tree) {
    !Staged(c, base) && !Unstaged(c) && !Untracked(c)
  }

  /** The three inspections together say that index and worktree are both exactly `base`. */
  lemma MatchesBaseExactly(c: Checkout, base: Tree)
    ensures MatchesBase(c, base) <==> c.index == base && c.work == base
  {
    if MatchesBase(c, base) {
      forall p ensures p in c.work <==> p in base {
        assert p in c.index ==> At(c.work, p) == Some(c.index[p]);
      }
      assert forall p | p in base :: At(c.work, p) == Some(base[p]);
    }
  }

  // ----- git read-tree -m -u from to -----

  /** A path that the two-tree merge switches from `from` to `to`: it differs, and nobody touched it. */
  predicate Takes(from: Tree, to: Tree, c: Checkout, p: Path) {
    At(from, p) != At(to, p) && At(c.index, p) == At(from, p) && At(c.work, p) == At(from, p)
  }

  /** A path on which the merge refuses: it differs, and the index is neither side or the file is dirty. */
  predicate Refuses(from: Tree, to: Tree, c: Checkout, p: Path) {
    At(from, p) != At(to, p) && At(c.index, p) != At(to, p) && !Takes(from, to, c, p)
  }

  predicate Mergeable(from: Tree, to: Tree, c: Checkout) {
    forall p | p in from.Keys + to.Keys :: !Refuses(from, to, c, p)
  }

  /** The tree `t` after switching to `to` the taken paths that lie in `done`. */
  function Switch(from: Tree, to: Tree, c: Checkout, t: Tree, done: set<Path>): Tree {
    map p | p in t.Keys + to.Keys && At(if p in done && Takes(from, to, c, p) then to else t, p) != None ::
      At(if p in done && Takes(from, to, c, p) then to else t, p).value
  }

  /** A complete merge updates index and worktree together. */
  function ReadTree(from: Tree, to: Tree, c: Checkout): Checkout {
    var all := from.Keys + to.Keys;
    c.(index := Switch(from, to, c, c.index, all), work := Switch(from, to, c, c.work, all))
  }

  /** A merge that dies half way has rewritten some files; the index is replaced last, by a rename. */
  function TornReadTree(from: Tree, to: Tree, c: Checkout, done: set<Path>): Checkout {
    c.(work := Switch(from, to, c, c.work, done * (from.Keys + to.Keys)))
  }

  /** A path of the checkout either is left alone, or went from the untouched base content to the candidate's. */
  ghost predicate KeptAt(from: Tree, to: Tree, c: Checkout, c': Checkout, p: Path) {
    && (At(c'.work, p) != At(c.work, p) ==>
          At(c.index, p) == At(c.work, p) == At(from, p) && At(c'.work, p) == At(to, p))
    && (At(c'.index, p) != At(c.index, p) ==>
          At(c.index, p) == At(c.work, p) == At(from, p) && At(c'.index, p) == At(to, p) == At(c'.work, p))
  }

  /**
   * What a synchronization may do to a checkout: it moves no branch, and no path that the
   * Owner staged, edited, created or deleted changes, in the index or on disk.
   */
  ghost predicate KeepsOwnerWork(from: Tree, to: Tree, c: Checkout, c': Checkout) {
    c'.head == c.head && forall p: Path :: KeptAt(from, to, c, c', p)
  }

  lemma SwitchAt(from: Tree, to: Tree, c: Checkout, t: Tree, done: set<Path>, p: Path)
    ensures At(Switch(from, to, c, t, done), p) == At(if p in done && Takes(from, to, c, p) then to else t, p)
  {}

  lemma SynchronizationKeepsOwnerWork(from: Tree, to: Tree, c: Checkout, done: set<Path>)
    ensures KeepsOwnerWork(from, to, c, ReadTree(from, to, c))
    ensures KeepsOwnerWork(from, to, c, TornReadTree(from, to, c, done))
  {
    var r, t := ReadTree(from, to, c), TornReadTree(from, to, c, done);
    var all := from.Keys + to.Keys;
    forall p: Path ensures KeptAt(from, to, c, r, p) && KeptAt(from, to, c, t, p) {
      SwitchAt(from, to, c, c.index, all, p);
      SwitchAt(from, to, c, c.work, all, p);
      SwitchAt(from, to, c, c.work, done * all, p);
    }
  }

  /** What a path holds after a merge that gets through. */
  lemma MergedAt(from: Tree, to: Tree, c: Checkout, p: Path)
    requires !Refuses(from, to, c, p)
    ensures var r := ReadTree(from, to, c);
            && At(r.index, p) == (if At(from, p) != At(to, p) then At(to, p) else At(c.index, p))
            && At(r.work, p) == if At(c.index, p) == At(c.work, p) == At(from, p) then At(to, p) else At(c.work, p)
  {
    SwitchAt(from, to, c, c.index, from.Keys + to.Keys, p);
    SwitchAt(from, to, c, c.work, from.Keys + to.Keys, p);
  }

  /**
   * The merge gets through exactly if each path on which the two trees differ is already staged as
   * in `to`, or has been touched by nobody. Then the index is `to` on all these paths and as it was
   * on all others, and just the files that nobody touched are switched.
   */
  lemma MergeableIff(from: Tree, to: Tree, c: Checkout)
    ensures Mergeable(from, to, c) <==>
            forall p :: At(from, p) == At(to, p) || At(c.index, p) == At(to, p) || At(c.index, p) == At(c.work, p) == At(from, p)
    ensures Mergeable(from, to, c) ==>
              var r := ReadTree(from, to, c);
              && (forall p :: At(r.index, p) == if At(from, p) != At(to, p) then At(to, p) else At(c.index, p))
              && (forall p :: At(r.work, p) == if At(c.index, p) == At(c.work, p) == At(from, p) then At(to, p) else At(c.work, p))
  {
    NobodyRefuses(from, to, c);
    if Mergeable(from, to, c) {
      var r := ReadTree(from, to, c);
      forall p ensures At(r.index, p) == if At(from, p) != At(to, p) then At(to, p) else At(c.index, p) {
        assert At(from, p) != At(to, p) ==> p in from.Keys + to.Keys;
        MergedAt(from, to, c, p);
      }
      forall p ensures At(r.work, p) == if At(c.index, p) == At(c.work, p) == At(from, p) then At(to, p) else At(c.work, p) {
        assert At(from, p) != At(to, p) ==> p in from.Keys + to.Keys;
        MergedAt(from, to, c, p);
      }
    }
  }

  lemma NobodyRefuses(from: Tree, to: Tree, c: Checkout)
    ensures Mergeable(from, to, c) <==>
            forall p :: At(from, p) == At(to, p) || At(c.index, p) == At(to, p) || At(c.index, p) == At(c.work, p) == At(from, p)
  {
    if Mergeable(from, to, c) {
      forall p ensures At(from, p) == At(to, p) || At(c.index, p) == At(to, p) || At(c.index, p) == At(c.work, p) == At(from, p) {
        assert At(from, p) != At(to, p) ==> p in from.Keys + to.Keys && !Refuses(from, to, c, p);
      }
    } else {
      var p :| p in from.Keys + to.Keys && Refuses(from, to, c, p);
      assert At(from, p) != At(to, p) && At(c.index, p) != At(to, p);
    }
  }

  /** Half way the index is as it was, and each file is as it was or as it will be; `done` says which. */
  lemma TornReadTreeIsBetween(from: Tree, to: Tree, c: Checkout, done: set<Path>)
    ensures var t, r := TornReadTree(from, to, c, done), ReadTree(from, to, c);
            t.index == c.index && t.head == c.head && forall p :: At(t.work, p) == At(if p in done then r.work else c.work, p)
  {
    var all := from.Keys + to.Keys;
    forall p: Path ensures At(TornReadTree(from, to, c, done).work, p) == At(if p in done then ReadTree(from, to, c).work else c.work, p) {
      SwitchAt(from, to, c, c.work, done * all, p);
      SwitchAt(from, to, c, c.work, all, p);
    }
  }

  /** From a checkout equal to the base the merge cannot refuse, and it lands exactly on the candidate. */
  lemma ReadTreeFromBase(from: Tree, to: Tree, c: Checkout)
    requires c.index == from && c.work == from
    ensures Mergeable(from, to, c)
    ensures ReadTree(from, to, c) == c.(index := to, work := to)
  {
    var r := ReadTree(from, to, c);
    forall p ensures At(r.index, p) == At(to, p) && At(r.work, p) == At(to, p) {
      SwitchAt(from, to, c, c.index, from.Keys + to.Keys, p);
    }
    SameTree(r.index, to);
    SameTree(r.work, to);
  }

  lemma SameTree(s: Tree, t: Tree)
    requires forall p :: At(s, p) == At(t, p)
    ensures s == t
  {
    forall p ensures p in s <==> p in t {
      assert At(s, p) == At(t, p);
    }
    forall p | p in s ensures s[p] == t[p] {
      assert At(s, p) == At(t, p);
    }
  }
}
