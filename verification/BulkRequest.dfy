/** The bulk part of a poll or walk: the roots are walked in chunks of at most
    `max_oid_to_process`, each by its own generator with `nonRepeaters` = 0,
    without limits and with `lexicographicMode` off. */
module BulkRequest {
  import opened Mib
  import opened BulkWalk
  import opened WalkSafety
  import opened WalkRefinement
  import opened WalkCompleteness

  function Chunks<T>(items: seq<T>, n: nat): (chunks: seq<seq<T>>)
    requires n > 0
    decreases |items|
  {
    if items == [] then []
    else
      var m := Min(n, |items|);
      [items[..m]] + Chunks(items[m..], n)
  }

  function Flatten<T>(chunks: seq<seq<T>>): seq<T> {
    if chunks == [] then [] else chunks[0] + Flatten(chunks[1..])
  }

  // Chunking neither loses, repeats nor reorders anything, and respects the size.
  lemma {:induction false} ChunksPartition<T>(items: seq<T>, n: nat)
    requires n > 0
    ensures Flatten(Chunks(items, n)) == items
    ensures forall c :: c in Chunks(items, n) ==> 0 < |c| <= n
    decreases |items|
  {
    hide *;
    ChunksByOne(items, n);
    if items != [] {
      var m := Min(n, |items|);
      MinIs(n, |items|);
      ChunksPartition(items[m..], n);
      FlattenCons(items[..m], Chunks(items[m..], n));
      assert items[..m] + items[m..] == items;
    } else {
      FlattenNothing<T>();
    }
  }

  lemma ChunksByOne<T>(items: seq<T>, n: nat)
    requires n > 0
    ensures items == [] ==> Chunks(items, n) == []
    ensures items != [] ==> 0 < Min(n, |items|) <= |items|
    ensures items != [] ==>
              Chunks(items, n) == [items[..Min(n, |items|)]] + Chunks(items[Min(n, |items|)..], n)
  {
  }

  lemma MinIs(a: int, b: int)
    ensures Min(a, b) <= a && Min(a, b) <= b && (Min(a, b) == a || Min(a, b) == b)
  {
  }

  lemma FlattenCons<T>(chunk: seq<T>, chunks: seq<seq<T>>)
    ensures Flatten([chunk] + chunks) == chunk + Flatten(chunks)
  {
    assert ([chunk] + chunks)[1..] == chunks;
  }

  lemma FlattenNothing<T>()
    ensures Flatten<T>([]) == []
  {
  }

  lemma ChunkAt<T>(items: seq<T>, n: nat, i: nat, before: seq<seq<T>>)
    requires n > 0 && i < |items|
    ensures var end := Min(i + n, |items|);
            before + Chunks(items[i..], n) == before + [items[i..end]] + Chunks(items[end..], n)
  {
    var rest, m := items[i..], Min(n, |items| - i);
    assert rest[..m] == items[i..Min(i + n, |items|)] && rest[m..] == items[Min(i + n, |items|)..];
  }

  // The generator of slices.
  method GetVarbindChunk<T>(items: seq<T>, n: nat) returns (chunks: seq<seq<T>>)
    requires n > 0
    ensures chunks == Chunks(items, n)
  {
    chunks := [];
    var i := 0;
    while i < |items|
      invariant 0 <= i
      invariant chunks + Chunks(items[Min(i, |items|)..], n) == Chunks(items, n)
    {
      ChunkAt(items, n, i, chunks);
      chunks := chunks + [items[i..Min(i + n, |items|)]];
      i := i + n;
    }
  }

  function BulkConfig(roots: seq<Oid>, ignoreNonIncreasingOid: bool): Config {
    Config(roots, 0, false, ignoreNonIncreasingOid, 0, 0)
  }

  // The rows of chunk `c` and those after it, each walk drawn for `k` requests.
  function BulkRows(agents: nat -> Agent, ignore: bool, maxRepetitions: int, chunks: seq<seq<Oid>>, c: nat,
                    k: nat): seq<Row>
    decreases |chunks|
  {
    if chunks == [] then []
    else Delivered(After(agents(c), BulkConfig(chunks[0], ignore), maxRepetitions, k).emitted)
         + BulkRows(agents, ignore, maxRepetitions, chunks[1..], c + 1, k)
  }

  lemma {:induction false} BelowConcat(a: seq<Row>, b: seq<Row>, root: Oid)
    ensures Below(a + b, root) == Below(a, root) + Below(b, root)
  {
    if b == [] {
      assert a + b == a;
    } else {
      var n := |b| - 1;
      BelowConcat(a, b[..n], root);
      assert (a + b)[..|a + b| - 1] == a + b[..n];
    }
  }

  lemma {:induction false} BelowNothing(rows: seq<Row>, root: Oid)
    requires forall r :: r in rows ==> !(root <= r.name)
    ensures Below(rows, root) == []
  {
    if rows != [] {
      BelowNothing(rows[..|rows| - 1], root);
    }
  }

  ghost predicate Apart(roots: seq<Oid>, root: Oid) {
    forall r :: r in roots ==> !(r <= root) && !(root <= r)
  }

  // A walk of roots apart from `root` delivers nothing below it.
  lemma ElsewhereDeliversNothing(agent: Agent, cfg: Config, maxRepetitions: int, k: nat, root: Oid)
    requires Apart(cfg.roots, root) && !cfg.lexicographicMode
    requires After(agent, cfg, maxRepetitions, k).ending != NoSuchName
    ensures Below(Delivered(After(agent, cfg, maxRepetitions, k).emitted), root) == []
  {
    AlwaysSafe(agent, cfg, maxRepetitions, k);
    ElsewhereFound(cfg, After(agent, cfg, maxRepetitions, k), root);
  }

  lemma ElsewhereFound(cfg: Config, run: Run, root: Oid)
    requires Apart(cfg.roots, root) && !cfg.lexicographicMode && Safe(cfg, run) && run.ending != NoSuchName
    ensures Below(Delivered(run.emitted), root) == []
  {
    var rows := Delivered(run.emitted);
    forall r | r in rows
      ensures !(root <= r.name)
    {
      var n :| 0 <= n < |rows| && rows[n] == r;
      var f := run.found[n];
      assert f in run.found && GoodCredit(cfg, f) && cfg.roots[f.root] in cfg.roots;
    }
    BelowNothing(rows, root);
  }

  ghost predicate AllFaithful(mib: seq<Row>, agents: nat -> Agent) {
    forall c :: Faithful(mib, agents(c))
  }

  lemma NeverHidden(mib: seq<Row>, agent: Agent, cfg: Config, maxRepetitions: int, k: nat)
    requires Sorted(mib) && Faithful(mib, agent) && maxRepetitions >= 1
    ensures After(agent, cfg, maxRepetitions, k).ending != NoSuchName
  {
    hide *;
    FaithfulInPart(mib, agent);
    AlwaysRefined(mib, agent, cfg, maxRepetitions, k);
    RefinedEnding(cfg, Listings(mib, cfg), After(agent, cfg, maxRepetitions, k));
  }

  lemma PartsApart(roots: seq<Oid>, m: nat, root: Oid)
    requires Apart(roots, root) && m <= |roots|
    ensures Apart(roots[..m], root) && Apart(roots[m..], root)
  {
    assert forall r :: r in roots[..m] || r in roots[m..] ==> r in roots;
  }

  lemma {:induction false} BulkElsewhere(mib: seq<Row>, agents: nat -> Agent, ignore: bool, maxRepetitions: int,
                                         roots: seq<Oid>, n: nat, c: nat, k: nat, root: Oid)
    requires Sorted(mib) && AllFaithful(mib, agents) && maxRepetitions >= 1 && n > 0 && Apart(roots, root)
    ensures Below(BulkRows(agents, ignore, maxRepetitions, Chunks(roots, n), c, k), root) == []
    decreases |roots|
  {
    if roots != [] {
      var first, rest := roots[..Min(n, |roots|)], roots[Min(n, |roots|)..];
      assert Apart(first, root) && Apart(rest, root) by { PartsApart(roots, Min(n, |roots|), root); }
      assert Faithful(mib, agents(c));
      NeverHidden(mib, agents(c), BulkConfig(first, ignore), maxRepetitions, k);
      ElsewhereDeliversNothing(agents(c), BulkConfig(first, ignore), maxRepetitions, k, root);
      BulkElsewhere(mib, agents, ignore, maxRepetitions, rest, n, c + 1, k, root);
      BulkUnfold(agents, ignore, maxRepetitions, roots, n, c, k, root);
    }
  }

  lemma BulkUnfold(agents: nat -> Agent, ignore: bool, maxRepetitions: int, roots: seq<Oid>, n: nat, c: nat, k: nat,
                   root: Oid)
    requires n > 0 && roots != []
    ensures var first, rest := roots[..Min(n, |roots|)], roots[Min(n, |roots|)..];
            Below(BulkRows(agents, ignore, maxRepetitions, Chunks(roots, n), c, k), root) ==
              Below(Delivered(After(agents(c), BulkConfig(first, ignore), maxRepetitions, k).emitted), root)
              + Below(BulkRows(agents, ignore, maxRepetitions, Chunks(rest, n), c + 1, k), root)
  {
    var first, rest := roots[..Min(n, |roots|)], roots[Min(n, |roots|)..];
    assert Chunks(roots, n) == [first] + Chunks(rest, n);
    BelowConcat(Delivered(After(agents(c), BulkConfig(first, ignore), maxRepetitions, k).emitted),
                BulkRows(agents, ignore, maxRepetitions, Chunks(rest, n), c + 1, k), root);
  }

  // Splitting the roots into chunks of any size is invisible: below each root
  // the consumer sees exactly that root's listing, whatever the chunk size.
  lemma {:induction false} ChunkingIsInvisible(mib: seq<Row>, agents: nat -> Agent, ignore: bool, maxRepetitions: int,
                                               roots: seq<Oid>, n: nat, c: nat, k: nat, g: nat)
    requires Sorted(mib) && AllFaithful(mib, agents) && maxRepetitions >= 1 && n > 0 && k > |mib|
    requires NonNested(roots) && g < |roots|
    ensures Below(BulkRows(agents, ignore, maxRepetitions, Chunks(roots, n), c, k), roots[g]) ==
              Listing(mib, roots[g], false)
    decreases |roots|
  {
    hide Listing, Below, Delivered, After, Chunks, BulkRows, Faithful, Sorted, Refined;
    var m := Min(n, |roots|);
    var first, rest := roots[..m], roots[m..];
    assert Faithful(mib, agents(c));
    BulkUnfold(agents, ignore, maxRepetitions, roots, n, c, k, roots[g]);
    if g < m {
      EachSubtreeIsDelivered(mib, agents(c), BulkConfig(first, ignore), maxRepetitions, k, g);
      BulkElsewhere(mib, agents, ignore, maxRepetitions, rest, n, c + 1, k, roots[g]);
    } else {
      NeverHidden(mib, agents(c), BulkConfig(first, ignore), maxRepetitions, k);
      ElsewhereDeliversNothing(agents(c), BulkConfig(first, ignore), maxRepetitions, k, roots[g]);
      ChunkingIsInvisible(mib, agents, ignore, maxRepetitions, rest, n, c + 1, k, g - m);
      assert rest[g - m] == roots[g];
    }
  }

  // Which chunk a root is in, and where.
  lemma {:induction false} ChunkOf<T>(items: seq<T>, n: nat, g: nat) returns (q: nat, r: nat)
    requires n > 0 && g < |items|
    ensures q < |Chunks(items, n)| && r < |Chunks(items, n)[q]| && Chunks(items, n)[q][r] == items[g] && q * n + r == g
    decreases |items|
  {
    hide *;
    ChunksByOne(items, n);
    MinIs(n, |items|);
    var m := Min(n, |items|);
    if g < m {
      q, r := 0, g;
    } else {
      var p;
      p, r := ChunkOf(items[m..], n, g - m);
      q := p + 1;
      assert Chunks(items, n)[q] == Chunks(items[m..], n)[p] && items[m..][g - m] == items[g];
      assert q * n == p * n + n;
    }
  }

  // Roots below one another may be split as well: in the walk of its own chunk
  // every root has exactly its listing credited to it.
  lemma ChunkedRootIsComplete(mib: seq<Row>, agents: nat -> Agent, ignore: bool, maxRepetitions: int, roots: seq<Oid>,
                              n: nat, c: nat, k: nat, g: nat) returns (q: nat, r: nat)
    requires Sorted(mib) && AllFaithful(mib, agents) && maxRepetitions >= 1 && n > 0 && k > |mib| && g < |roots|
    ensures q < |Chunks(roots, n)| && r < |Chunks(roots, n)[q]| && Chunks(roots, n)[q][r] == roots[g] && q * n + r == g
    ensures var run := After(agents(c + q), BulkConfig(Chunks(roots, n)[q], ignore), maxRepetitions, k);
            Project(run.found, r) == Listing(mib, roots[g], false) && Delivered(run.emitted) == Rows(run.found)
  {
    hide Listing, Delivered, After, Chunks, Faithful, Sorted, Project;
    q, r := ChunkOf(roots, n, g);
    assert Faithful(mib, agents(c + q));
    EachRootIsComplete(mib, agents(c + q), BulkConfig(Chunks(roots, n)[q], ignore), maxRepetitions, k, r);
  }

  // ---- All rows together ----

  // How often each row is listed.
  ghost function RowBag(ls: seq<seq<Row>>): multiset<Row> {
    if ls == [] then multiset{} else RowBag(ls[..|ls| - 1]) + multiset(ls[|ls| - 1])
  }

  lemma {:induction false} RowBagConcat(a: seq<seq<Row>>, b: seq<seq<Row>>)
    ensures RowBag(a + b) == RowBag(a) + RowBag(b)
  {
    if b == [] {
      assert a + b == a;
    } else {
      var n := |b| - 1;
      RowBagConcat(a, b[..n]);
      assert (a + b)[..|a + b| - 1] == a + b[..n];
    }
  }

  // The rows found for the first `n` roots.
  ghost function BagByRoot(found: seq<Found>, n: nat): multiset<Row> {
    if n == 0 then multiset{} else BagByRoot(found, n - 1) + multiset(Project(found, n - 1))
  }

  lemma {:induction false} BagOneMore(found: seq<Found>, f: Found, n: nat)
    ensures BagByRoot(found + [f], n) == BagByRoot(found, n) + if f.root < n then multiset{f.row} else multiset{}
  {
    hide Project;
    if n > 0 {
      var before, now := BagByRoot(found, n - 1), BagByRoot(found + [f], n - 1);
      var rows := Project(found, n - 1);
      BagOneMore(found, f, n - 1);
      ProjectNext(found, f, n - 1);
      if f.root == n - 1 {
        assert multiset(rows + [f.row]) == multiset(rows) + multiset{f.row} && now == before;
      } else {
        assert rows + [] == rows;
      }
    }
  }

  lemma {:induction false} BagNothing(n: nat)
    ensures BagByRoot([], n) == multiset{}
  {
    if n > 0 {
      BagNothing(n - 1);
    }
  }

  lemma {:induction false} BagIsAll(found: seq<Found>, n: nat)
    requires forall f :: f in found ==> f.root < n
    ensures BagByRoot(found, n) == multiset(Rows(found))
  {
    hide BagByRoot;
    if found == [] {
      BagNothing(n);
    } else {
      var init, last := found[..|found| - 1], found[|found| - 1];
      BagIsAll(init, n);
      BagOneMore(init, last, n);
      assert found == init + [last] && Rows(found) == Rows(init) + [last.row];
    }
  }

  lemma {:induction false} BagOfComplete(ls: seq<seq<Row>>, found: seq<Found>, n: nat)
    requires n <= |ls| && forall i :: 0 <= i < n ==> Project(found, i) == ls[i]
    ensures BagByRoot(found, n) == RowBag(ls[..n])
  {
    hide Project;
    if n > 0 {
      BagOfComplete(ls, found, n - 1);
      assert ls[..n][..n - 1] == ls[..n - 1];
    }
  }

  lemma WalkRows(mib: seq<Row>, agent: Agent, cfg: Config, maxRepetitions: int, k: nat)
    requires Sorted(mib) && Faithful(mib, agent) && maxRepetitions >= 1 && k > |mib|
    requires cfg.maxRows == 0 && cfg.maxCalls == 0
    ensures multiset(Delivered(After(agent, cfg, maxRepetitions, k).emitted)) == RowBag(Listings(mib, cfg))
  {
    hide After, Sorted, Faithful, Listing, Project, Delivered, RowBag, BagByRoot;
    var run, ls := After(agent, cfg, maxRepetitions, k), Listings(mib, cfg);
    AlwaysSafe(agent, cfg, maxRepetitions, k);
    NeverHidden(mib, agent, cfg, maxRepetitions, k);
    forall f | f in run.found
      ensures f.root < |ls|
    {
      assert GoodCredit(cfg, f);
    }
    BagIsAll(run.found, |ls|);
    forall i | 0 <= i < |ls|
      ensures Project(run.found, i) == ls[i]
    {
      EachRootIsComplete(mib, agent, cfg, maxRepetitions, k, i);
    }
    BagOfComplete(ls, run.found, |ls|);
    assert ls[..|ls|] == ls;
  }

  // Roots below one another included: chunks of any size bring every row as
  // often as it is listed for some root, no more and no less.
  lemma {:induction false} ChunkingKeepsRows(mib: seq<Row>, agents: nat -> Agent, ignore: bool, maxRepetitions: int,
                                             roots: seq<Oid>, n: nat, c: nat, k: nat)
    requires Sorted(mib) && AllFaithful(mib, agents) && maxRepetitions >= 1 && n > 0 && k > |mib|
    ensures multiset(BulkRows(agents, ignore, maxRepetitions, Chunks(roots, n), c, k)) ==
              RowBag(Listings(mib, BulkConfig(roots, ignore)))
    decreases |roots|
  {
    hide Listing, Delivered, After, Chunks, Faithful, Sorted, RowBag;
    ChunksByOne(roots, n);
    if roots == [] {
      NoBulkRows(mib, agents, ignore, maxRepetitions, c, k);
    } else {
      var m := Min(n, |roots|);
      var first, rest := roots[..m], roots[m..];
      assert Faithful(mib, agents(c));
      WalkRows(mib, agents(c), BulkConfig(first, ignore), maxRepetitions, k);
      ChunkingKeepsRows(mib, agents, ignore, maxRepetitions, rest, n, c + 1, k);
      RowBagConcat(Listings(mib, BulkConfig(first, ignore)), Listings(mib, BulkConfig(rest, ignore)));
      assert Listings(mib, BulkConfig(roots, ignore)) ==
             Listings(mib, BulkConfig(first, ignore)) + Listings(mib, BulkConfig(rest, ignore));
    }
  }

  lemma NoBulkRows(mib: seq<Row>, agents: nat -> Agent, ignore: bool, maxRepetitions: int, c: nat, k: nat)
    ensures BulkRows(agents, ignore, maxRepetitions, [], c, k) == []
    ensures RowBag(Listings(mib, BulkConfig([], ignore))) == multiset{}
  {
  }
}
