/** The filtered view of the ledger: free-text search, category, and a date range. */
module Filters {
  import opened Seqs
  import opened Text
  import opened Transactions

  /** The four filter inputs: search box, category select, from date and to date
      (an empty date input means "no bound"). */
  datatype Criteria = Criteria(search: string, category: string, from: string, to: string)

  /** The category select's "match everything" value. */
  const AllCategories: string := "All"

  /** Filter inputs as the page first shows them. */
  const Unfiltered: Criteria := Criteria("", AllCategories, "", "")

  predicate MatchText(t: Transaction, c: Criteria)
  {
    Includes(Lower(t.text), Lower(c.search))
  }

  predicate MatchCategory(t: Transaction, c: Criteria)
  {
    c.category == AllCategories || t.category == c.category
  }

  /** `!from || date >= from`; ECMAScript's `x >= y` on strings is `!(x < y)`. */
  predicate MatchFrom(t: Transaction, c: Criteria)
  {
    c.from == [] || !Less(t.date, c.from)
  }

  /** `!to || date <= to`; ECMAScript's `x <= y` on strings is `!(y < x)`. */
  predicate MatchTo(t: Transaction, c: Criteria)
  {
    c.to == [] || !Less(c.to, t.date)
  }

  predicate Matches(t: Transaction, c: Criteria)
  {
    MatchText(t, c) && MatchCategory(t, c) && MatchFrom(t, c) && MatchTo(t, c)
  }

  function MatchesCriteria(c: Criteria): Transaction -> bool
  {
    (t: Transaction) => Matches(t, c)
  }

  /** The records the list, the balance and the income/expense cards show. */
  function FilteredView(ts: seq<Transaction>, c: Criteria): (r: seq<Transaction>)
    ensures |r| <= |ts|
  {
    Filter(ts, MatchesCriteria(c))
  }

  /** A record is in the view if and only if it is in the ledger and passes all four tests. */
  lemma FilteredViewMembers(ts: seq<Transaction>, c: Criteria, t: Transaction)
    ensures t in FilteredView(ts, c) <==>
      t in ts && (exists i :: OccursAt(Lower(t.text), Lower(c.search), i)) &&
      (c.category == AllCategories || t.category == c.category) &&
      (c.from == [] || !Less(t.date, c.from)) &&
      (c.to == [] || !Less(c.to, t.date))
  {
    FilterMembers(ts, MatchesCriteria(c));
    IncludesIffOccurs(Lower(t.text), Lower(c.search));
  }

  /** The view lists its records in ledger order. */
  lemma FilteredViewIsSubsequence(ts: seq<Transaction>, c: Criteria)
    ensures IsSubsequence(FilteredView(ts, c), ts)
  {
    FilterIsSubsequence(ts, MatchesCriteria(c));
  }

  /** With the filter inputs untouched the view is the whole ledger, unchanged. */
  lemma UnfilteredViewIsLedger(ts: seq<Transaction>)
    ensures FilteredView(ts, Unfiltered) == ts
  {
    forall k | 0 <= k < |ts| ensures Matches(ts[k], Unfiltered) {
      IncludesEmpty(Lower(ts[k].text));
    }
    FilterKeepsAll(ts, MatchesCriteria(Unfiltered));
  }

  /** A date within both bounds: `from <= date <= to` in the string order. */
  lemma MatchedDateWithinRange(t: Transaction, c: Criteria)
    requires Matches(t, c) && c.from != [] && c.to != []
    ensures !Less(t.date, c.from) && !Less(c.to, t.date)
    ensures !Less(c.to, c.from)
  {
    AtMostTransitive(c.from, t.date, c.to);
  }

  /** A range whose from date is after its to date selects nothing. */
  lemma InvertedRangeSelectsNothing(ts: seq<Transaction>, c: Criteria)
    requires c.from != [] && c.to != [] && Less(c.to, c.from)
    ensures FilteredView(ts, c) == []
  {
    forall k | 0 <= k < |ts| ensures !Matches(ts[k], c) {
      if MatchFrom(ts[k], c) && MatchTo(ts[k], c) {
        AtMostTransitive(c.from, ts[k].date, c.to);
      }
    }
    FilterKeepsNone(ts, MatchesCriteria(c));
  }

  /** A one-day range (`from == to`) selects exactly the records of that date. */
  lemma SameDayRange(t: Transaction, c: Criteria)
    requires c.from != [] && c.from == c.to
    ensures MatchFrom(t, c) && MatchTo(t, c) <==> t.date == c.from
  {
    LessTotal(t.date, c.from);
    LessIrreflexive(c.from);
  }

  /** The stretch of `s` starting at `i` equals `search` up to ASCII letter case. */
  ghost predicate EqualIgnoringCaseAt(s: string, search: string, i: int)
  {
    0 <= i && i + |search| <= |s| && Lower(s[i..i + |search|]) == Lower(search)
  }

  /** The search ignores the case of ASCII letters on both sides: a record matches exactly
      when some stretch of its description, as typed, equals the search up to letter case. */
  lemma SearchIgnoresCase(t: Transaction, c: Criteria)
    ensures MatchText(t, c) <==> exists i :: EqualIgnoringCaseAt(t.text, c.search, i)
  {
    var text, search := Lower(t.text), Lower(c.search);
    IncludesIffOccurs(text, search);
    if MatchText(t, c) {
      var i :| OccursAt(text, search, i);
      LowerSlice(t.text, i, i + |c.search|);
      assert EqualIgnoringCaseAt(t.text, c.search, i);
    }
    forall i | EqualIgnoringCaseAt(t.text, c.search, i) ensures OccursAt(text, search, i) {
      LowerSlice(t.text, i, i + |c.search|);
    }
  }
}
