/**
 * The table-filter chain: an ordered list of filters, each of which may
 * answer a query about a table, and the first-answer-wins rules the
 * repository builds on it (OverrideRepository.java lines 234-271, 528-538).
 */
module TableFilters {
  import opened Wrappers
  import opened Keys

  /**
   * One filter as the repository sees it. The matching logic of
   * `TableFilter` is not part of this model; its four queries are taken as
   * given functions:
   *   exclude           -- `exclude(ti)`: a verdict, or null when the filter does not match
   *   excludeSetting    -- `getExclude()`: false for an include-type filter
   *   packageFor        -- `getPackage(ti)`
   *   metaAttributesFor -- `getMetaAttributes(ti)`
   */
  datatype TableFilter = TableFilter(
    exclude: TableIdentifier -> Option<bool>,
    excludeSetting: bool,
    packageFor: TableIdentifier -> Option<string>,
    metaAttributesFor: TableIdentifier -> Option<MetaMap>)

  /** The first non-null answer of `query` in chain order. */
  function FirstAnswer<T>(filters: seq<TableFilter>, query: TableFilter -> Option<T>): Option<T>
    decreases |filters|
  {
    if filters == [] then None
    else if query(filters[0]).Some? then query(filters[0])
    else FirstAnswer(filters[1..], query)
  }

  /** Filter `i` answers `query` and no filter before it does. */
  predicate AnswersFirstAt<T>(filters: seq<TableFilter>, query: TableFilter -> Option<T>, i: int) {
    && 0 <= i < |filters|
    && query(filters[i]).Some?
    && forall j | 0 <= j < i :: query(filters[j]).None?
  }

  /** The first-answer rule without recursion: no answer iff no filter
      answers, and otherwise the answer of the first filter that does. */
  lemma {:induction false} FirstAnswerSpec<T>(filters: seq<TableFilter>, query: TableFilter -> Option<T>)
    ensures FirstAnswer(filters, query).None? <==> forall i | 0 <= i < |filters| :: query(filters[i]).None?
    ensures forall i | AnswersFirstAt(filters, query, i) :: FirstAnswer(filters, query) == query(filters[i])
    decreases |filters|
  {
    if filters != [] && query(filters[0]).None? {
      FirstAnswerSpec(filters[1..], query);
      forall i | AnswersFirstAt(filters, query, i)
        ensures i > 0 && AnswersFirstAt(filters[1..], query, i - 1)
      {
      }
      if FirstAnswer(filters, query).None? {
        forall i | 0 <= i < |filters| ensures query(filters[i]).None? {
          if i > 0 {
            assert filters[i] == filters[1..][i - 1];
          }
        }
      }
    }
  }

  /** Adding a filter at the end of the chain changes the first answer only
      when no earlier filter answered. */
  lemma {:induction false} FirstAnswerAppend<T>(filters: seq<TableFilter>, f: TableFilter, query: TableFilter -> Option<T>)
    ensures FirstAnswer(filters + [f], query) ==
            if FirstAnswer(filters, query).Some? then FirstAnswer(filters, query) else query(f)
    decreases |filters|
  {
    if filters != [] {
      assert (filters + [f])[1..] == filters[1..] + [f];
      FirstAnswerAppend(filters[1..], f, query);
    }
  }

  /** `getPackageName`: the first package a filter gives for the table. */
  function PackageName(filters: seq<TableFilter>, ti: TableIdentifier): Option<string> {
    FirstAnswer(filters, (f: TableFilter) => f.packageFor(ti))
  }

  /** `findGeneralAttributes`: the first meta-attribute map a filter gives. */
  function GeneralAttributes(filters: seq<TableFilter>, ti: TableIdentifier): Option<MetaMap> {
    FirstAnswer(filters, (f: TableFilter) => f.metaAttributesFor(ti))
  }

  /** The first explicit include/exclude verdict for the table. */
  function FirstVerdict(filters: seq<TableFilter>, ti: TableIdentifier): Option<bool> {
    FirstAnswer(filters, (f: TableFilter) => f.exclude(ti))
  }

  /** Some filter in the chain is include-type (`getExclude()` is false). */
  predicate HasIncludeFilter(filters: seq<TableFilter>) {
    exists i | 0 <= i < |filters| :: !filters[i].excludeSetting
  }

  /**
   * `excludeTable`, as two passes: the first explicit verdict decides;
   * without one the table is excluded iff the chain holds an include-type
   * filter.
   */
  function Excluded(filters: seq<TableFilter>, ti: TableIdentifier): bool {
    match FirstVerdict(filters, ti)
    case Some(v) => v
    case None => HasIncludeFilter(filters)
  }

  /** Filter `i` gives the first explicit verdict for `ti`. */
  predicate DecidesFirst(filters: seq<TableFilter>, ti: TableIdentifier, i: int) {
    && 0 <= i < |filters|
    && filters[i].exclude(ti).Some?
    && forall j | 0 <= j < i :: filters[j].exclude(ti).None?
  }

  /** The exclusion rule in full: a table is excluded iff the first filter
      with a verdict says exclude, or no filter has a verdict and some filter
      is include-type. */
  lemma ExcludedSpec(filters: seq<TableFilter>, ti: TableIdentifier)
    ensures Excluded(filters, ti) <==>
      || (exists i :: DecidesFirst(filters, ti, i) && filters[i].exclude(ti) == Some(true))
      || ((forall i | 0 <= i < |filters| :: filters[i].exclude(ti).None?) && HasIncludeFilter(filters))
  {
    var q := (f: TableFilter) => f.exclude(ti);
    FirstAnswerSpec(filters, q);
    forall i ensures DecidesFirst(filters, ti, i) <==> AnswersFirstAt(filters, q, i) {
    }
    if FirstVerdict(filters, ti).Some? {
      var i :| 0 <= i < |filters| && filters[i].exclude(ti).Some?;
      var k := FirstIndex(filters, ti, i);
      assert AnswersFirstAt(filters, q, k);
    }
  }

  /** Some filter with a verdict exists, so a first one exists. */
  lemma FirstIndex(filters: seq<TableFilter>, ti: TableIdentifier, i: int) returns (k: int)
    requires 0 <= i < |filters| && filters[i].exclude(ti).Some?
    ensures DecidesFirst(filters, ti, k) && k <= i
    decreases i
  {
    if exists j | 0 <= j < i :: filters[j].exclude(ti).Some? {
      var j :| 0 <= j < i && filters[j].exclude(ti).Some?;
      k := FirstIndex(filters, ti, j);
    } else {
      k := i;
    }
  }

  /** The empty chain excludes nothing. */
  lemma EmptyChainIncludesAll(ti: TableIdentifier)
    ensures !Excluded([], ti)
  {
  }

  /** `addTableFilter` and exclusion: a decided table keeps its verdict; an
      undecided one takes the new filter's verdict, or else becomes excluded
      once the chain holds an include-type filter. */
  lemma ExcludedAfterAppend(filters: seq<TableFilter>, f: TableFilter, ti: TableIdentifier)
    ensures FirstVerdict(filters, ti).Some? ==> Excluded(filters + [f], ti) == Excluded(filters, ti)
    ensures FirstVerdict(filters, ti).None? && f.exclude(ti).Some? ==> Excluded(filters + [f], ti) == f.exclude(ti).value
    ensures FirstVerdict(filters, ti).None? && f.exclude(ti).None? ==>
              Excluded(filters + [f], ti) == (HasIncludeFilter(filters) || !f.excludeSetting)
  {
    FirstAnswerAppend(filters, f, (g: TableFilter) => g.exclude(ti));
    if !HasIncludeFilter(filters) && !f.excludeSetting {
      assert !(filters + [f])[|filters|].excludeSetting;
    }
    if HasIncludeFilter(filters) {
      var i :| 0 <= i < |filters| && !filters[i].excludeSetting;
      assert !(filters + [f])[i].excludeSetting;
    }
  }

  /** An include-type filter narrows the universe: a table that neither an
      include-type filter `a` nor an exclude-type filter `b` decides is
      excluded by the chain [a, b] but included by [b] alone. */
  lemma IncludeFilterNarrowsUniverse(a: TableFilter, b: TableFilter, ti: TableIdentifier)
    requires !a.excludeSetting && a.exclude(ti).None?
    requires b.excludeSetting && b.exclude(ti).None?
    ensures Excluded([a, b], ti)
    ensures !Excluded([b], ti)
  {
    var q := (f: TableFilter) => f.exclude(ti);
    FirstAnswerSpec([a, b], q);
    FirstAnswerSpec([b], q);
    assert HasIncludeFilter([a, b]) by { assert ![a, b][0].excludeSetting; }
  }
}
