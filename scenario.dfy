/** A worked example through the whole dashboard pipeline: a two-record
    snapshot is loaded, filtered by the search box and counted per bucket. */
module Scenario {
  import opened Wrappers
  import opened Text
  import opened Seqs
  import opened Records
  import opened Filter
  import opened Aggregate

  const First: RawRecord :=
    RawRecord("C001", "Priya Nair", Some("High"), "Passport", None, NullDays, "Expired", Some("Aarav"))
  const Second: RawRecord :=
    RawRecord("C002", "Tom Baker", None, "Passport", None, NullDays, "0-30 days", Some("Johnson"))
  const Snapshot: Document := Document(Some([First, Second]), None)

  /** The two rows as loaded: the null risk rating of the second reads as `Unknown`. */
  const FirstRow: Record := Record("C001", "Priya Nair", "High", "Passport", None, None, "Expired", "Aarav")
  const SecondRow: Record := Record("C002", "Tom Baker", Unknown, "Passport", None, None, "0-30 days", "Johnson")

  lemma LoadsBoth(text: string)
    ensures LoadData(Present(text), (s: string) => Some(Snapshot)) == Ok(Loaded(Snapshot, [FirstRow, SecondRow]))
  {
    var r := LoadData(Present(text), (s: string) => Some(Snapshot));
    assert r.value.rows[0] == Normalize(First) == FirstRow;
    assert r.value.rows[1] == Normalize(Second) == SecondRow;
    assert |r.value.rows| == 2;
    assert r.value.rows == [FirstRow, SecondRow];
  }

  lemma FirstMatches()
    ensures MatchesQuery("aarav")(FirstRow)
  {
    assert Lower("Aarav") == "aarav";
    assert OccursAt("aarav", Lower(FieldTexts(FirstRow)[7]), 0);
  }

  lemma LacksV(t: string)
    requires forall k :: 0 <= k < |t| ==> t[k] != 'v' && t[k] != 'V'
    ensures !Occurs("aarav", Lower(t))
  {
    MissingCharNotOccurs("aarav", Lower(t), 4);
  }

  lemma SecondMisses()
    ensures !MatchesQuery("aarav")(SecondRow)
  {
    LacksV("C002");
    LacksV("Tom Baker");
    LacksV(Unknown);
    LacksV("Passport");
    LacksV("NaT");
    LacksV("nan");
    LacksV("0-30 days");
    LacksV("Johnson");
  }

  /** `aarav` occurs only in the first row (its manager), case ignored. */
  lemma SearchKeepsFirst()
    ensures FilterRows([FirstRow, SecondRow], AllManagers, "aarav") == [FirstRow]
  {
    LowerQuery();
    FirstMatches();
    SecondMisses();
    SelectFirstOfTwo(FirstRow, SecondRow, MatchesQuery("aarav"));
  }

  lemma LowerQuery()
    ensures Lower("aarav") == "aarav"
  {
  }

  lemma SelectFirstOfTwo(a: Record, b: Record, p: Record -> bool)
    requires p(a) && !p(b)
    ensures Select([a, b], p) == [a]
  {
    assert [a, b][1..] == [b];
    assert [b][1..] == [];
  }

  lemma CountsOfFirst()
    ensures BucketCounts([FirstRow])
            == [("Expired", 1), ("0-30 days", 0), ("31-60 days", 0), ("61-90 days", 0), ("90+ days", 0)]
  {
    assert MapSeq([FirstRow], BucketOf) == ["Expired"];
  }

  /** Loading the snapshot, searching for `aarav` with every manager
      selected keeps exactly the first record, and the bucket counts of that
      result are one `Expired` and zero elsewhere. */
  lemma SearchThenCount(text: string)
    ensures var loaded := LoadData(Present(text), (s: string) => Some(Snapshot));
            && loaded.Ok?
            && loaded.value.rows[1].riskRating == Unknown
            && FilterRows(loaded.value.rows, AllManagers, "aarav") == [Normalize(First)]
            && BucketCounts(FilterRows(loaded.value.rows, AllManagers, "aarav"))
               == [("Expired", 1), ("0-30 days", 0), ("31-60 days", 0), ("61-90 days", 0), ("90+ days", 0)]
  {
    LoadsBoth(text);
    SearchKeepsFirst();
    CountsOfFirst();
  }
}
