/** The transaction record, the add-form validation and removal by id. */
module Transactions {
  import opened Seqs
  import opened Text

  /** One ledger entry. The amount is in hundredths (cents): positive is income,
      negative is expense. The date is the `YYYY-MM-DD` text of the date input. */
  datatype Transaction = Transaction(id: int, text: string, amount: int, category: string, date: string)

  /** What the add form holds on submit. A number input that is empty (or holds
      no number) reports an empty value; that is `amount == None`. */
  datatype Form = Form(text: string, amount: Option<int>, category: string, date: string)

  datatype Option<T> = None | Some(value: T)

  /** The submit guard: trimmed description, amount and date must all be non-empty.
      The category is not checked. */
  predicate Accepts(f: Form)
  {
    Trim(f.text) != [] && f.amount.Some? && f.date != []
  }

  /** The record a valid submission creates. The description is stored as typed, untrimmed;
      a record the guard lets through has a description that is not all whitespace, and a date. */
  function Record(f: Form, id: int): (t: Transaction)
    requires f.amount.Some?
    ensures t.id == id && t.amount == f.amount.value
    ensures Accepts(f) ==> !IsBlank(t.text) && t.date != []
  {
    AcceptsIff(f);
    Transaction(id, f.text, f.amount.value, f.category, f.date)
  }

  /** The guard rejects a submission exactly when the description is only
      whitespace, the amount is empty or the date is empty. */
  lemma AcceptsIff(f: Form)
    ensures !Accepts(f) <==> IsBlank(f.text) || f.amount.None? || f.date == []
  {
    TrimEmptyIffBlank(f.text);
  }

  /** `rec.id !== id`, the test `removeTransaction` keeps records by. */
  function KeepsOtherThan(id: int): Transaction -> bool
  {
    (t: Transaction) => t.id != id
  }

  /** The ledger after `removeTransaction(id)`. */
  function Without(ts: seq<Transaction>, id: int): (r: seq<Transaction>)
    ensures forall k :: 0 <= k < |r| ==> r[k].id != id
    ensures forall t :: t in r <==> t in ts && t.id != id
    ensures forall t :: multiset(r)[t] == if t.id != id then multiset(ts)[t] else 0
  {
    FilterMembers(ts, KeepsOtherThan(id));
    FilterCount(ts, KeepsOtherThan(id));
    Filter(ts, KeepsOtherThan(id))
  }

  /** Removal keeps every other record, in its original order. */
  lemma WithoutIsSubsequence(ts: seq<Transaction>, id: int)
    ensures IsSubsequence(Without(ts, id), ts)
  {
    FilterIsSubsequence(ts, KeepsOtherThan(id));
  }

  /** Removing an id that is not present changes nothing. */
  lemma WithoutAbsent(ts: seq<Transaction>, id: int)
    requires forall k :: 0 <= k < |ts| ==> ts[k].id != id
    ensures Without(ts, id) == ts
  {
    FilterKeepsAll(ts, KeepsOtherThan(id));
  }

  /** Removing twice is removing once. */
  lemma WithoutIdempotent(ts: seq<Transaction>, id: int)
    ensures Without(Without(ts, id), id) == Without(ts, id)
  {
    FilterIdempotent(ts, KeepsOtherThan(id));
  }

  /** Removing the record with a unique id shortens the ledger by exactly one. */
  lemma {:induction false} WithoutUnique(ts: seq<Transaction>, k: nat)
    requires k < |ts| && UniqueIds(ts)
    ensures |Without(ts, ts[k].id)| == |ts| - 1
  {
    var id := ts[k].id;
    var p := KeepsOtherThan(id);
    assert ts == ts[..k] + [ts[k]] + ts[k + 1..];
    FilterAppend(ts[..k] + [ts[k]], ts[k + 1..], p);
    FilterAppend(ts[..k], [ts[k]], p);
    FilterKeepsAll(ts[..k], p);
    FilterKeepsAll(ts[k + 1..], p);
    assert Filter([ts[k]], p) == [];
  }

  /** No two records share an id. Ids are meant to be unique; nothing in the page enforces it. */
  predicate UniqueIds(ts: seq<Transaction>)
  {
    forall i, j :: 0 <= i < j < |ts| ==> ts[i].id != ts[j].id
  }

  /** Appending a record with an id not yet in use keeps the ids unique. */
  lemma AppendFreshKeepsUnique(ts: seq<Transaction>, t: Transaction)
    requires UniqueIds(ts)
    requires forall k :: 0 <= k < |ts| ==> ts[k].id != t.id
    ensures UniqueIds(ts + [t])
  {
  }

  /** Removal keeps the ids unique. */
  lemma WithoutKeepsUnique(ts: seq<Transaction>, id: int)
    requires UniqueIds(ts)
    ensures UniqueIds(Without(ts, id))
  {
    WithoutIsSubsequence(ts, id);
    SubsequenceKeepsUnique(Without(ts, id), ts);
  }

  lemma {:induction false} SubsequenceKeepsUnique(r: seq<Transaction>, s: seq<Transaction>)
    requires IsSubsequence(r, s) && UniqueIds(s)
    ensures UniqueIds(r)
    decreases |s|
  {
    if r != [] {
      assert s != [];
      if r[0] == s[0] && IsSubsequence(r[1..], s[1..]) {
        SubsequenceKeepsUnique(r[1..], s[1..]);
        SubsequenceMembers(r[1..], s[1..]);
        forall j | 0 < j < |r| ensures r[0].id != r[j].id {
          assert r[j] == r[1..][j - 1];
        }
      } else {
        SubsequenceKeepsUnique(r, s[1..]);
      }
    }
  }

  lemma {:induction false} SubsequenceMembers<T>(r: seq<T>, s: seq<T>)
    requires IsSubsequence(r, s)
    ensures forall k :: 0 <= k < |r| ==> r[k] in s
    decreases |s|
  {
    if r != [] {
      if r[0] == s[0] && IsSubsequence(r[1..], s[1..]) {
        SubsequenceMembers(r[1..], s[1..]);
        assert forall k :: 0 < k < |r| ==> r[k] == r[1..][k - 1];
      } else {
        SubsequenceMembers(r, s[1..]);
      }
    }
  }
}
