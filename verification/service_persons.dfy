/**
 * The admin's service-person table (src/erp/listings/ServicePersonListing.tsx):
 * status changes keyed by e-mail, the Active/Pending tabs and the paginated
 * slice of the rows of the current tab.
 */
module ServicePersons {

  import Seqs

  /** A person's status is `"active" | "pending"`, so there are exactly two tabs. */
  datatype Status = Active | Pending

  /** A service person, with the fields the table logic reads. */
  datatype Person = Person(name: string, phone: string, email: string, status: Status)

  /** The component's list state: the persons, the page number, the page size and the open tab. */
  datatype ListState = ListState(persons: seq<Person>, page: nat, rowsPerPage: nat, tab: Status)

  /** The state right after mounting: first page, 10 rows a page, the Active tab. */
  function Initial(persons: seq<Person>): (st: ListState)
    ensures st.persons == persons
    ensures st.page == 0 && st.rowsPerPage == 10 && st.tab == Active
  {
    ListState(persons, 0, 10, Active)
  }

  /** `handleStatusChange`: every person with that e-mail gets the new status. */
  function ChangeStatus(persons: seq<Person>, email: string, status: Status): (r: seq<Person>)
    ensures |r| == |persons|
    ensures forall i :: 0 <= i < |persons| && persons[i].email == email ==> r[i] == persons[i].(status := status)
    ensures forall i :: 0 <= i < |persons| && persons[i].email != email ==> r[i] == persons[i]
  {
    Seqs.Map(persons, (p: Person) => if p.email == email then p.(status := status) else p)
  }

  /** Changing a status twice to the same value is the same as changing it once. */
  lemma ChangeStatusIdempotent(persons: seq<Person>, email: string, status: Status)
    ensures ChangeStatus(ChangeStatus(persons, email, status), email, status) == ChangeStatus(persons, email, status)
  {
  }

  function OnTab(tab: Status): Person -> bool {
    (p: Person) => p.status == tab
  }

  /** `filteredRows`: the persons whose status is the open tab, in list order. */
  function FilteredRows(persons: seq<Person>, tab: Status): (r: seq<Person>)
    ensures forall p :: p in r <==> p in persons && p.status == tab
  {
    Seqs.FilterMembers(persons, OnTab(tab));
    Seqs.Filter(persons, OnTab(tab))
  }

  /** The tab keeps list order: filtering a concatenation filters each part in turn, one person by its status. */
  lemma FilteredRowsKeepOrder(a: seq<Person>, b: seq<Person>, x: Person, tab: Status)
    ensures FilteredRows(a + b, tab) == FilteredRows(a, tab) + FilteredRows(b, tab)
    ensures FilteredRows([x], tab) == if x.status == tab then [x] else []
  {
    Seqs.FilterAppend(a, b, OnTab(tab));
    Seqs.FilterSnoc([], x, OnTab(tab));
    assert [] + [x] == [x];
  }

  /**
   * Each person is listed under exactly one tab: the two tabs together hold
   * the whole list, counting repetitions.
   */
  lemma TabsPartition(persons: seq<Person>)
    ensures multiset(FilteredRows(persons, Active)) + multiset(FilteredRows(persons, Pending)) == multiset(persons)
    ensures |FilteredRows(persons, Active)| + |FilteredRows(persons, Pending)| == |persons|
  {
    var a, p := FilteredRows(persons, Active), FilteredRows(persons, Pending);
    Seqs.FilterMultiset(persons, OnTab(Active));
    Seqs.FilterMultiset(persons, OnTab(Pending));
    assert multiset(a) + multiset(p) == multiset(persons) by {
      forall x
        ensures (multiset(a) + multiset(p))[x] == multiset(persons)[x]
      {
      }
    }
    assert |multiset(a) + multiset(p)| == |multiset(persons)|;
  }

  /** After a status change the changed persons are listed under the new status's tab. */
  lemma ChangedPersonMovesTab(persons: seq<Person>, email: string, status: Status, i: nat)
    requires i < |persons| && persons[i].email == email
    ensures persons[i].(status := status) in FilteredRows(ChangeStatus(persons, email, status), status)
    ensures persons[i].(status := status) !in FilteredRows(ChangeStatus(persons, email, status),
                                                           if status == Active then Pending else Active)
  {
    assert ChangeStatus(persons, email, status)[i] == persons[i].(status := status);
  }

  /** An index clipped to `[0, len]` the way `Array.prototype.slice` clips its arguments. */
  function SliceIndex(x: int, len: nat): (k: nat)
    ensures k <= len
    ensures 0 <= x <= len ==> k == x
  {
    if x < 0 then (if x + len < 0 then 0 else x + len)
    else if x > len then len else x
  }

  /** `rows.slice(start, end)`. */
  function Slice<T>(rows: seq<T>, start: int, end: int): (r: seq<T>)
    ensures 0 <= start <= end <= |rows| ==> r == rows[start..end]
    ensures 0 <= end <= start ==> r == []
  {
    var s, e := SliceIndex(start, |rows|), SliceIndex(end, |rows|);
    if s < e then rows[s..e] else []
  }

  /** The rows of one page: `slice(page * rowsPerPage, page * rowsPerPage + rowsPerPage)`. */
  function PageRows<T>(rows: seq<T>, page: nat, rowsPerPage: nat): (r: seq<T>)
    ensures |r| <= rowsPerPage
    ensures forall j :: 0 <= j < |r| ==> page * rowsPerPage + j < |rows| && r[j] == rows[page * rowsPerPage + j]
    ensures page * rowsPerPage + rowsPerPage <= |rows| ==> |r| == rowsPerPage
    ensures page * rowsPerPage >= |rows| ==> r == []
  {
    Slice(rows, page * rowsPerPage, page * rowsPerPage + rowsPerPage)
  }

  /** The first `n` pages one after another. */
  function FirstPages<T>(rows: seq<T>, rowsPerPage: nat, n: nat): seq<T>
    decreases n
  {
    if n == 0 then [] else FirstPages(rows, rowsPerPage, n - 1) + PageRows(rows, n - 1, rowsPerPage)
  }

  /** A page starting at or before the end holds the rows from its start to its end, clipped at the end of the list. */
  lemma PageRowsClipped<T>(rows: seq<T>, page: nat, rowsPerPage: nat, start: nat)
    requires start == page * rowsPerPage && start <= |rows|
    ensures PageRows(rows, page, rowsPerPage) ==
            rows[start..if start + rowsPerPage <= |rows| then start + rowsPerPage else |rows|]
  {
  }

  /** The rows `n` pages of `rowsPerPage` cover, counted page by page. */
  function Covered(n: nat, rowsPerPage: nat): nat
    decreases n
  {
    if n == 0 then 0 else Covered(n - 1, rowsPerPage) + rowsPerPage
  }

  lemma {:induction false} CoveredIsProduct(n: nat, rowsPerPage: nat)
    ensures Covered(n, rowsPerPage) == n * rowsPerPage
    decreases n
  {
    if n > 0 {
      CoveredIsProduct(n - 1, rowsPerPage);
      assert n * rowsPerPage == (n - 1) * rowsPerPage + rowsPerPage;
    }
  }

  /** The page after a prefix of `start` rows extends it to `start + rowsPerPage` rows, clipped. */
  lemma AppendPage<T>(rows: seq<T>, rowsPerPage: nat, n: nat, start: nat)
    requires n > 0 && start == Covered(n - 1, rowsPerPage) && start <= |rows|
    requires FirstPages(rows, rowsPerPage, n - 1) == rows[..start]
    ensures FirstPages(rows, rowsPerPage, n) ==
            rows[..if start + rowsPerPage <= |rows| then start + rowsPerPage else |rows|]
  {
    var stop := if start + rowsPerPage <= |rows| then start + rowsPerPage else |rows|;
    CoveredIsProduct(n - 1, rowsPerPage);
    PageRowsClipped(rows, n - 1, rowsPerPage, start);
    assert rows[..stop] == rows[..start] + rows[start..stop];
  }

  /** Past the end of the list a page adds nothing. */
  lemma AppendEmptyPage<T>(rows: seq<T>, rowsPerPage: nat, n: nat)
    requires n > 0 && Covered(n - 1, rowsPerPage) > |rows|
    requires FirstPages(rows, rowsPerPage, n - 1) == rows
    ensures FirstPages(rows, rowsPerPage, n) == rows
  {
    CoveredIsProduct(n - 1, rowsPerPage);
    assert PageRows(rows, n - 1, rowsPerPage) == [];
  }

  /** The first `n` pages are the first `Covered(n)` rows, clipped at the end of the list. */
  lemma {:induction false} FirstPagesCover<T>(rows: seq<T>, rowsPerPage: nat, n: nat)
    ensures FirstPages(rows, rowsPerPage, n) ==
            rows[..if Covered(n, rowsPerPage) <= |rows| then Covered(n, rowsPerPage) else |rows|]
    decreases n
  {
    if n > 0 {
      var start := Covered(n - 1, rowsPerPage);
      FirstPagesCover(rows, rowsPerPage, n - 1);
      if start <= |rows| {
        AppendPage(rows, rowsPerPage, n, start);
      } else {
        assert rows[..|rows|] == rows;
        AppendEmptyPage(rows, rowsPerPage, n);
      }
    }
  }

  /** Paging loses and repeats nothing: the first `n` pages are the first `n * rowsPerPage` rows. */
  lemma FirstPagesArePrefix<T>(rows: seq<T>, rowsPerPage: nat, n: nat)
    ensures FirstPages(rows, rowsPerPage, n) == rows[..if n * rowsPerPage <= |rows| then n * rowsPerPage else |rows|]
  {
    FirstPagesCover(rows, rowsPerPage, n);
    CoveredIsProduct(n, rowsPerPage);
  }

  /** Enough pages show every row of the tab exactly once, in order. */
  lemma PagesCoverRows<T>(rows: seq<T>, rowsPerPage: nat, n: nat)
    requires n * rowsPerPage >= |rows|
    ensures FirstPages(rows, rowsPerPage, n) == rows
  {
    FirstPagesArePrefix(rows, rowsPerPage, n);
    assert rows[..|rows|] == rows;
  }

  /** The rows the table body shows. */
  function Visible(st: ListState): seq<Person>
  {
    PageRows(FilteredRows(st.persons, st.tab), st.page, st.rowsPerPage)
  }

  /** Events of the table. */
  datatype Event = StatusChanged(email: string, status: Status) | TabChanged(tab: Status)
                 | PageChanged(page: nat) | RowsPerPageChanged(rowsPerPage: nat)

  /** The handlers: choosing a page size goes back to the first page; switching tabs keeps the page. */
  function Step(st: ListState, ev: Event): (r: ListState)
    ensures ev.RowsPerPageChanged? ==> r.page == 0 && r.rowsPerPage == ev.rowsPerPage
    ensures ev.TabChanged? ==> r.tab == ev.tab && r.page == st.page && r.rowsPerPage == st.rowsPerPage
    ensures ev.PageChanged? ==> r.page == ev.page && r.tab == st.tab && r.rowsPerPage == st.rowsPerPage
    ensures ev.StatusChanged? ==> r.page == st.page && r.tab == st.tab && r.rowsPerPage == st.rowsPerPage
    ensures ev.StatusChanged? ==> r.persons == ChangeStatus(st.persons, ev.email, ev.status)
    ensures !ev.StatusChanged? ==> r.persons == st.persons
  {
    match ev
    case StatusChanged(email, status) => st.(persons := ChangeStatus(st.persons, email, status))
    case TabChanged(tab) => st.(tab := tab)
    case PageChanged(page) => st.(page := page)
    case RowsPerPageChanged(n) => st.(page := 0, rowsPerPage := n)
  }

  /** After choosing a page size the table shows the first rows of the open tab. */
  lemma RowsPerPageShowsFirstRows(st: ListState, n: nat)
    ensures Visible(Step(st, RowsPerPageChanged(n))) ==
            var rows := FilteredRows(st.persons, st.tab);
            rows[..if n <= |rows| then n else |rows|]
  {
    var rows := FilteredRows(st.persons, st.tab);
    FirstPagesArePrefix(rows, n, 1);
    assert FirstPages(rows, n, 1) == [] + PageRows(rows, 0, n);
  }
}
