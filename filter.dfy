/** `filter_rows` of app.py and the relationship-manager options offered to
    it: an exact manager match and a case-insensitive search over every
    field, composed with AND, as masks over the rows. */
module Filter {
  import opened Seqs
  import opened Text
  import opened Records

  /** The option that switches the manager filter off. */
  const AllManagers: string := "All"

  /** Some field's lower-cased text contains `q` (already lower-cased). */
  ghost predicate RowMatches(r: Record, q: string)
  {
    exists i :: 0 <= i < |FieldTexts(r)| && Occurs(q, Lower(FieldTexts(r)[i]))
  }

  /** `any(q in str(v).lower() for v in row.values)` */
  function AnyFieldContains(texts: seq<string>, q: string): (b: bool)
    ensures b <==> exists i :: 0 <= i < |texts| && Occurs(q, Lower(texts[i]))
  {
    if texts == [] then false
    else
      var b := Contains(Lower(texts[0]), q) || AnyFieldContains(texts[1..], q);
      assert forall i :: 1 <= i < |texts| ==> texts[1..][i - 1] == texts[i];
      b
  }

  predicate ManagerFilterOff(rm: string)
  {
    rm == "" || rm == AllManagers
  }

  /** `filtered["relationship_manager"] == rm` */
  function ManagerIs(rm: string): Record -> bool
  {
    (r: Record) => r.relationshipManager == rm
  }

  /** The mask of the text search, for a lower-cased query. */
  function MatchesQuery(q: string): Record -> bool
  {
    (r: Record) => AnyFieldContains(FieldTexts(r), q)
  }

  /** Both filters as one mask. */
  function Passes(rm: string, query: string): Record -> bool
  {
    (r: Record) => (ManagerFilterOff(rm) || r.relationshipManager == rm)
         && (query == "" || AnyFieldContains(FieldTexts(r), Lower(query)))
  }

  /** Whether a row survives `filter_rows(df, rm, query)`. */
  ghost predicate Keeps(rm: string, query: string, r: Record)
  {
    (ManagerFilterOff(rm) || r.relationshipManager == rm)
    && (query == "" || RowMatches(r, Lower(query)))
  }

  function FilterRows(rows: seq<Record>, rm: string, query: string): (r: seq<Record>)
    ensures ManagerFilterOff(rm) && query == "" ==> r == rows
    ensures rows == [] ==> r == []
  {
    if |rows| == 0 then rows
    else
      var byManager := if !ManagerFilterOff(rm) then Select(rows, ManagerIs(rm)) else rows;
      if query != "" then Select(byManager, MatchesQuery(Lower(query))) else byManager
  }

  /** The two successive masks of `filter_rows` amount to the single mask
      `Passes`. */
  lemma FilterRowsIsOneMask(rows: seq<Record>, rm: string, query: string)
    ensures FilterRows(rows, rm, query) == Select(rows, Passes(rm, query))
  {
    var pass := Passes(rm, query);
    var q := Lower(query);
    if |rows| > 0 {
      if !ManagerFilterOff(rm) && query != "" {
        SelectSelect(rows, ManagerIs(rm), MatchesQuery(q), pass);
      } else if !ManagerFilterOff(rm) {
        SelectSame(rows, ManagerIs(rm), pass);
      } else if query != "" {
        SelectSame(rows, MatchesQuery(q), pass);
      } else {
        SelectAll(rows, pass);
      }
    }
  }

  lemma PassesIsKeeps(rm: string, query: string, r: Record)
    ensures Passes(rm, query)(r) <==> Keeps(rm, query, r)
  {
  }

  /** `filter_rows` returns an order-preserving subsequence of its input:
      it keeps exactly the rows that pass, at increasing positions, and
      changes none of them. */
  lemma FilterRowsInOrder(rows: seq<Record>, rm: string, query: string)
    ensures Embeds(FilterRows(rows, rm, query), rows, KeptIndices(rows, Passes(rm, query)))
    ensures forall i :: i in KeptIndices(rows, Passes(rm, query)) <==> 0 <= i < |rows| && Keeps(rm, query, rows[i])
  {
    FilterRowsIsOneMask(rows, rm, query);
    SelectKeepsInOrder(rows, Passes(rm, query));
    forall i | 0 <= i < |rows| ensures Passes(rm, query)(rows[i]) <==> Keeps(rm, query, rows[i]) {
      PassesIsKeeps(rm, query, rows[i]);
    }
  }

  /** With a manager chosen, every kept row has that manager, and every row
      with that manager that also passes the search is kept. */
  lemma FilterRowsByManager(rows: seq<Record>, rm: string, query: string)
    requires !ManagerFilterOff(rm)
    ensures forall k :: 0 <= k < |FilterRows(rows, rm, query)| ==> FilterRows(rows, rm, query)[k].relationshipManager == rm
    ensures forall i :: (0 <= i < |rows| && rows[i].relationshipManager == rm
                         && (query == "" || RowMatches(rows[i], Lower(query))))
                        ==> rows[i] in FilterRows(rows, rm, query)
  {
    FilterRowsIsOneMask(rows, rm, query);
    forall i | 0 <= i < |rows| && rows[i].relationshipManager == rm && (query == "" || RowMatches(rows[i], Lower(query)))
      ensures rows[i] in FilterRows(rows, rm, query)
    {
      SelectContains(rows, Passes(rm, query), i);
    }
  }

  /** With a search, every kept row has a field containing the lower-cased
      query, and every row that does and passes the manager filter is kept. */
  lemma FilterRowsBySearch(rows: seq<Record>, rm: string, query: string)
    requires query != ""
    ensures forall k :: 0 <= k < |FilterRows(rows, rm, query)| ==> RowMatches(FilterRows(rows, rm, query)[k], Lower(query))
    ensures forall i :: (0 <= i < |rows| && RowMatches(rows[i], Lower(query))
                         && (ManagerFilterOff(rm) || rows[i].relationshipManager == rm))
                        ==> rows[i] in FilterRows(rows, rm, query)
  {
    FilterRowsIsOneMask(rows, rm, query);
    forall i | 0 <= i < |rows| && RowMatches(rows[i], Lower(query)) && (ManagerFilterOff(rm) || rows[i].relationshipManager == rm)
      ensures rows[i] in FilterRows(rows, rm, query)
    {
      SelectContains(rows, Passes(rm, query), i);
    }
  }

  /** Filtering what is already filtered changes nothing. */
  lemma FilterRowsIdempotent(rows: seq<Record>, rm: string, query: string)
    ensures FilterRows(FilterRows(rows, rm, query), rm, query) == FilterRows(rows, rm, query)
  {
    var once := FilterRows(rows, rm, query);
    FilterRowsIsOneMask(rows, rm, query);
    FilterRowsIsOneMask(once, rm, query);
    SelectAll(once, Passes(rm, query));
  }

  // ---------------------------------------------------------------------------
  // The manager select box
  // ---------------------------------------------------------------------------

  function Managers(rows: seq<Record>): (ms: seq<string>)
    ensures |ms| == |rows| && forall i :: 0 <= i < |rows| ==> ms[i] == rows[i].relationshipManager
  {
    seq(|rows|, i requires 0 <= i < |rows| => rows[i].relationshipManager)
  }

  /** `["All"] + sorted(df["relationship_manager"].dropna().unique())`; after
      normalisation no manager is missing, so `dropna` removes nothing. */
  function ManagerOptions(rows: seq<Record>): (opts: seq<string>)
    ensures |opts| >= 1 && opts[0] == AllManagers
    ensures StrictlySorted(opts[1..])
    ensures forall m :: m in opts[1..] <==> exists i :: 0 <= i < |rows| && rows[i].relationshipManager == m
  {
    var ms := Managers(rows);
    var opts := [AllManagers] + SortedDistinct(ms);
    assert opts[1..] == SortedDistinct(ms);
    forall m ensures m in ms <==> exists i :: 0 <= i < |rows| && rows[i].relationshipManager == m {
      if m in ms {
        var i :| 0 <= i < |ms| && ms[i] == m;
      }
    }
    opts
  }

  /** The manager options are the only strictly ascending listing of the
      distinct managers. */
  lemma ManagerOptionsUnique(rows: seq<Record>, listing: seq<string>)
    requires StrictlySorted(listing)
    requires forall m :: m in listing <==> exists i :: 0 <= i < |rows| && rows[i].relationshipManager == m
    ensures ManagerOptions(rows) == [AllManagers] + listing
  {
    var opts := ManagerOptions(rows);
    SortedUnique(opts[1..], listing);
    assert opts == [opts[0]] + opts[1..];
  }

  /** Each manager offered selects at least one row. */
  lemma ManagerOptionSelectsRows(rows: seq<Record>, m: string)
    requires m in ManagerOptions(rows)[1..]
    ensures |FilterRows(rows, m, "")| > 0
  {
    var i :| 0 <= i < |rows| && rows[i].relationshipManager == m;
    if !ManagerFilterOff(m) {
      FilterRowsByManager(rows, m, "");
      assert rows[i] in FilterRows(rows, m, "");
    }
  }
}
