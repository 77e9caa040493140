/** The agent's side of a walk: object identifiers in lexicographic order, and
    the one-step successor of sections 4.2.2 and 4.2.3 of RFC 3416 over a
    finite, sorted MIB view. */
module Mib {

  type Oid = seq<nat>

  datatype Value = Data(payload: string) | Null | EndOfMibView
  {
    // The values that end a root: an SNMP Null or the endOfMibView marker.
    predicate Terminal() {
      !Data?
    }
  }

  datatype Row = Row(name: Oid, val: Value)

  predicate LexLess(a: Oid, b: Oid) {
    if b == [] then false
    else if a == [] then true
    else a[0] < b[0] || (a[0] == b[0] && LexLess(a[1..], b[1..]))
  }

  // The scope test of the walk: everything in lexicographic mode, otherwise
  // the names that start with the root.
  predicate InScope(root: Oid, lexicographic: bool, name: Oid) {
    lexicographic || root <= name
  }

  // A MIB view: strictly increasing names, and real values only.
  ghost predicate Sorted(mib: seq<Row>) {
    && (forall i, j :: 0 <= i < j < |mib| ==> LexLess(mib[i].name, mib[j].name))
    && (forall i :: 0 <= i < |mib| ==> mib[i].val.Data?)
  }

  // How many rows of the view are not after `oid`.
  function FirstAfter(mib: seq<Row>, oid: Oid): (p: nat)
    ensures p <= |mib|
  {
    if mib == [] || LexLess(oid, mib[0].name) then 0 else 1 + FirstAfter(mib[1..], oid)
  }

  // One GETNEXT: the first row after `oid`, or endOfMibView under the same name.
  function Next(mib: seq<Row>, oid: Oid): Row {
    var p := FirstAfter(mib, oid);
    if p < |mib| then mib[p] else Row(oid, EndOfMibView)
  }

  // The k-th successor: GETNEXT repeated on the name it returned.
  function Successor(mib: seq<Row>, oid: Oid, k: nat): Row
    requires k >= 1
  {
    Next(mib, if k == 1 then oid else Successor(mib, oid, k - 1).name)
  }

  // The rows a walk of `root` should deliver.
  function Listing(mib: seq<Row>, root: Oid, lexicographic: bool): (rows: seq<Row>)
    ensures |rows| <= |mib|
  {
    if mib == [] then []
    else
      (if LexLess(root, mib[0].name) && InScope(root, lexicographic, mib[0].name) then [mib[0]] else [])
      + Listing(mib[1..], root, lexicographic)
  }

  lemma LexIrreflexive(a: Oid)
    ensures !LexLess(a, a)
  {
  }

  lemma {:induction false} LexTransitive(a: Oid, b: Oid, c: Oid)
    requires LexLess(a, b) && LexLess(b, c)
    ensures LexLess(a, c)
  {
    if a != [] && a[0] == b[0] && b[0] == c[0] {
      LexTransitive(a[1..], b[1..], c[1..]);
    }
  }

  // A subtree is an interval: whatever lies between a root and a name below
  // the root is below the root as well.
  lemma {:induction false} SubtreeIsInterval(root: Oid, x: Oid, y: Oid)
    requires LexLess(root, x) && LexLess(x, y) && root <= y
    ensures root <= x
  {
    if root != [] {
      assert root[0] == y[0];
      SubtreeIsInterval(root[1..], x[1..], y[1..]);
      assert root == [root[0]] + root[1..] && x == [x[0]] + x[1..];
    }
  }

  lemma SortedTail(mib: seq<Row>)
    requires Sorted(mib) && mib != []
    ensures Sorted(mib[1..])
  {
  }

  lemma {:induction false} FirstAfterIs(mib: seq<Row>, oid: Oid, p: nat)
    requires Sorted(mib) && p <= |mib|
    requires p > 0 ==> !LexLess(oid, mib[p - 1].name)
    requires p < |mib| ==> LexLess(oid, mib[p].name)
    ensures FirstAfter(mib, oid) == p
  {
    if p > 0 {
      if LexLess(oid, mib[0].name) && p > 1 {
        LexTransitive(oid, mib[0].name, mib[p - 1].name);
      }
      FirstAfterIs(mib[1..], oid, p - 1);
    }
  }

  lemma FirstAfterRow(mib: seq<Row>, i: nat)
    requires Sorted(mib) && i < |mib|
    ensures FirstAfter(mib, mib[i].name) == i + 1
  {
    LexIrreflexive(mib[i].name);
    FirstAfterIs(mib, mib[i].name, i + 1);
  }

  // Repeated GETNEXT enumerates the view, then stays at its end.
  lemma {:induction false} SuccessorAt(mib: seq<Row>, oid: Oid, k: nat)
    requires Sorted(mib) && k >= 1
    ensures var p := FirstAfter(mib, oid) + k - 1;
            && (p < |mib| ==> Successor(mib, oid, k) == mib[p])
            && (p >= |mib| ==> (Successor(mib, oid, k).val.EndOfMibView?
                                && FirstAfter(mib, Successor(mib, oid, k).name) == |mib|))
  {
    hide FirstAfter, LexLess, Sorted;
    if k > 1 {
      SuccessorAt(mib, oid, k - 1);
      var p := FirstAfter(mib, oid) + k - 2;
      if p < |mib| {
        FirstAfterRow(mib, p);
      }
    }
  }

  lemma {:induction false} NothingInScopeAfterGap(mib: seq<Row>, root: Oid, x: Oid)
    requires Sorted(mib) && LexLess(root, x) && !(root <= x)
    requires forall i :: 0 <= i < |mib| ==> LexLess(x, mib[i].name)
    ensures Listing(mib, root, false) == []
  {
    if mib != [] {
      if root <= mib[0].name {
        SubtreeIsInterval(root, x, mib[0].name);
      }
      NothingInScopeAfterGap(mib[1..], root, x);
    }
  }

  lemma {:induction false} FirstAfterBefore(mib: seq<Row>, oid: Oid)
    requires Sorted(mib) && mib != [] && LexLess(oid, mib[0].name)
    ensures FirstAfter(mib[1..], oid) == 0
  {
    if |mib| > 1 {
      LexTransitive(oid, mib[0].name, mib[1].name);
    }
  }

  lemma {:induction false} ListingInScope(mib: seq<Row>, root: Oid, lexicographic: bool)
    ensures forall r :: r in Listing(mib, root, lexicographic) ==>
              LexLess(root, r.name) && InScope(root, lexicographic, r.name) && r in mib
  {
    if mib != [] {
      ListingInScope(mib[1..], root, lexicographic);
    }
  }

  // Exactly the rows after the root and, unless names beyond it count too, below it.
  lemma {:induction false} ListingIsSubtree(mib: seq<Row>, root: Oid, lexicographic: bool)
    ensures forall r :: r in Listing(mib, root, lexicographic) <==>
              r in mib && LexLess(root, r.name) && (lexicographic || root <= r.name)
  {
    if mib != [] {
      ListingIsSubtree(mib[1..], root, lexicographic);
      assert mib == [mib[0]] + mib[1..];
      assert forall r :: r in mib <==> r == mib[0] || r in mib[1..];
    }
  }

  // A name comes before those it begins, and before those greater at the first
  // difference.
  lemma {:induction false} LexByDifference(a: Oid, b: Oid)
    ensures LexLess(a, b) <==> a < b || exists i :: DiffersAt(a, b, i)
  {
    if a != [] && b != [] && a[0] == b[0] {
      LexByDifference(a[1..], b[1..]);
      assert a == [a[0]] + a[1..] && b == [b[0]] + b[1..];
      if i :| DiffersAt(a, b, i) {
        assert DiffersAt(a[1..], b[1..], i - 1);
      }
      if i :| DiffersAt(a[1..], b[1..], i) {
        assert DiffersAt(a, b, i + 1);
      }
    } else if a != [] && b != [] && a[0] < b[0] {
      assert DiffersAt(a, b, 0);
    }
  }

  predicate DiffersAt(a: Oid, b: Oid, i: int) {
    0 <= i < |a| && i < |b| && a[..i] == b[..i] && a[i] < b[i]
  }

  // A root's listing is a slice of the view that starts at its successor, and
  // the row that follows the slice, when there is one, is out of scope.
  ghost predicate IsSlice(mib: seq<Row>, root: Oid, lexicographic: bool, p: nat, rows: seq<Row>) {
    && p + |rows| <= |mib|
    && (forall i :: 0 <= i < |rows| ==> rows[i] == mib[p + i])
    && (p + |rows| < |mib| ==> !InScope(root, lexicographic, mib[p + |rows|].name))
  }

  lemma ByFirstRow(mib: seq<Row>, root: Oid, lexicographic: bool)
    requires mib != []
    ensures LexLess(root, mib[0].name) ==> FirstAfter(mib, root) == 0
    ensures !LexLess(root, mib[0].name) ==>
              FirstAfter(mib, root) == FirstAfter(mib[1..], root) + 1
              && Listing(mib, root, lexicographic) == Listing(mib[1..], root, lexicographic)
    ensures LexLess(root, mib[0].name) && InScope(root, lexicographic, mib[0].name) ==>
              Listing(mib, root, lexicographic) == [mib[0]] + Listing(mib[1..], root, lexicographic)
  {
    hide LexLess, InScope;
  }

  lemma SliceExtends(mib: seq<Row>, root: Oid, lexicographic: bool, tail: seq<Row>)
    requires mib != [] && IsSlice(mib[1..], root, lexicographic, 0, tail)
    ensures IsSlice(mib, root, lexicographic, 0, [mib[0]] + tail)
  {
    hide InScope;
    var rows := [mib[0]] + tail;
    forall i | 0 <= i < |rows|
      ensures rows[i] == mib[0 + i]
    {
      assert i > 0 ==> tail[i - 1] == mib[1..][0 + (i - 1)];
    }
  }

  lemma SliceCons(mib: seq<Row>, root: Oid, lexicographic: bool)
    requires mib != [] && LexLess(root, mib[0].name) && InScope(root, lexicographic, mib[0].name)
    requires IsSlice(mib[1..], root, lexicographic, 0, Listing(mib[1..], root, lexicographic))
    ensures IsSlice(mib, root, lexicographic, FirstAfter(mib, root), Listing(mib, root, lexicographic))
  {
    hide *;
    ByFirstRow(mib, root, lexicographic);
    SliceExtends(mib, root, lexicographic, Listing(mib[1..], root, lexicographic));
  }

  lemma SliceShift(mib: seq<Row>, root: Oid, lexicographic: bool, q: nat, rows: seq<Row>)
    requires mib != [] && IsSlice(mib[1..], root, lexicographic, q, rows)
    ensures IsSlice(mib, root, lexicographic, q + 1, rows)
  {
    forall i | 0 <= i < |rows|
      ensures rows[i] == mib[q + 1 + i]
    {
      assert rows[i] == mib[1..][q + i];
    }
  }

  lemma SliceSkip(mib: seq<Row>, root: Oid, lexicographic: bool)
    requires mib != [] && !LexLess(root, mib[0].name)
    requires IsSlice(mib[1..], root, lexicographic, FirstAfter(mib[1..], root), Listing(mib[1..], root, lexicographic))
    ensures IsSlice(mib, root, lexicographic, FirstAfter(mib, root), Listing(mib, root, lexicographic))
  {
    hide *;
    ByFirstRow(mib, root, lexicographic);
    SliceShift(mib, root, lexicographic, FirstAfter(mib[1..], root), Listing(mib[1..], root, lexicographic));
  }

  lemma SliceEmpty(mib: seq<Row>, root: Oid, lexicographic: bool)
    requires mib != [] && LexLess(root, mib[0].name) && !InScope(root, lexicographic, mib[0].name)
    requires Listing(mib[1..], root, lexicographic) == []
    ensures IsSlice(mib, root, lexicographic, FirstAfter(mib, root), Listing(mib, root, lexicographic))
  {
  }

  lemma {:induction false} ListingIsSlice(mib: seq<Row>, root: Oid, lexicographic: bool)
    requires Sorted(mib)
    ensures IsSlice(mib, root, lexicographic, FirstAfter(mib, root), Listing(mib, root, lexicographic))
  {
    if mib != [] {
      SortedTail(mib);
      ListingIsSlice(mib[1..], root, lexicographic);
      if !LexLess(root, mib[0].name) {
        SliceSkip(mib, root, lexicographic);
      } else if InScope(root, lexicographic, mib[0].name) {
        FirstAfterBefore(mib, root);
        SliceCons(mib, root, lexicographic);
      } else {
        NothingInScopeAfterGap(mib[1..], root, mib[0].name);
        SliceEmpty(mib, root, lexicographic);
      }
    }
  }

  // The name a root has reached after `pos` rows.
  function NameAt(root: Oid, rows: seq<Row>, pos: nat): Oid
    requires pos <= |rows|
  {
    if pos == 0 then root else rows[pos - 1].name
  }

  lemma SliceAt(mib: seq<Row>, root: Oid, lexicographic: bool, rows: seq<Row>, i: nat)
    requires IsSlice(mib, root, lexicographic, FirstAfter(mib, root), rows) && i < |rows|
    ensures rows[i] == mib[FirstAfter(mib, root) + i]
  {
  }

  lemma NextOfName(mib: seq<Row>, root: Oid, lexicographic: bool, rows: seq<Row>, pos: nat)
    requires Sorted(mib) && pos <= |rows|
    requires IsSlice(mib, root, lexicographic, FirstAfter(mib, root), rows)
    ensures FirstAfter(mib, NameAt(root, rows, pos)) == FirstAfter(mib, root) + pos
  {
    if pos > 0 {
      SliceAt(mib, root, lexicographic, rows, pos - 1);
      FirstAfterRow(mib, FirstAfter(mib, root) + pos - 1);
    }
  }

  // The heart of the refinement: from position `pos` of a root's listing, the
  // k-th successor is the listing's row `pos + k - 1`, and one step past the
  // listing it is a row that ends the root.
  lemma SuccessorInListing(mib: seq<Row>, root: Oid, lexicographic: bool, pos: nat, k: nat)
    requires Sorted(mib) && k >= 1
    requires pos <= |Listing(mib, root, lexicographic)|
    ensures var rows := Listing(mib, root, lexicographic);
            var r := Successor(mib, NameAt(root, rows, pos), k);
            && (pos + k - 1 < |rows| ==> r == rows[pos + k - 1] && r.val.Data? && InScope(root, lexicographic, r.name))
            && (pos + k - 1 == |rows| ==> r.val.Terminal() || !InScope(root, lexicographic, r.name))
  {
    ListingIsSlice(mib, root, lexicographic);
    ListingInScope(mib, root, lexicographic);
    SuccessorInSlice(mib, root, lexicographic, Listing(mib, root, lexicographic), pos, k);
  }

  lemma SuccessorInSlice(mib: seq<Row>, root: Oid, lexicographic: bool, rows: seq<Row>, pos: nat, k: nat)
    requires Sorted(mib) && k >= 1 && pos <= |rows|
    requires IsSlice(mib, root, lexicographic, FirstAfter(mib, root), rows)
    requires forall r :: r in rows ==> InScope(root, lexicographic, r.name)
    ensures var r := Successor(mib, NameAt(root, rows, pos), k);
            && (pos + k - 1 < |rows| ==> r == rows[pos + k - 1] && r.val.Data? && InScope(root, lexicographic, r.name))
            && (pos + k - 1 == |rows| ==> r.val.Terminal() || !InScope(root, lexicographic, r.name))
  {
    hide *;
    var name, p := NameAt(root, rows, pos), FirstAfter(mib, root);
    NextOfName(mib, root, lexicographic, rows, pos);
    SuccessorAt(mib, name, k);
    SuccessorBySlice(mib, root, lexicographic, rows, p, pos + k - 1, Successor(mib, name, k));
  }

  lemma SuccessorBySlice(mib: seq<Row>, root: Oid, lexicographic: bool, rows: seq<Row>, p: nat, i: nat, r: Row)
    requires Sorted(mib) && IsSlice(mib, root, lexicographic, p, rows)
    requires forall r :: r in rows ==> InScope(root, lexicographic, r.name)
    requires if p + i < |mib| then r == mib[p + i] else r.val.EndOfMibView?
    ensures i < |rows| ==> r == rows[i] && r.val.Data? && InScope(root, lexicographic, r.name)
    ensures i == |rows| ==> r.val.Terminal() || !InScope(root, lexicographic, r.name)
  {
    if i < |rows| {
      assert rows[i] == mib[p + i];
    }
  }
}
