/**
 * What the totals tab stores and shows: an insertion-ordered dictionary from
 * section title to that section's latest signed total, laid out as one row
 * per section followed by a "Monthly Savings" row holding their sum.
 */
module Totals {
  import opened Wrappers

  /** Title of the last row of the totals table. */
  const MonthlySavings: string := "Monthly Savings"

  /** The dictionary as its items() in insertion order. */
  type Sections = seq<(string, real)>

  /** A row of the totals table: a title cell and an amount cell. */
  datatype TotalRow = TotalRow(title: string, amount: real)

  /** Dictionary keys are unique. */
  predicate UniqueTitles(s: Sections)
  {
    forall i, j :: 0 <= i < j < |s| ==> s[i].0 != s[j].0
  }

  /** Position of the entry for a title, if it has one. */
  function IndexOf(s: Sections, title: string): (r: Option<nat>)
    ensures r.None? <==> forall i :: 0 <= i < |s| ==> s[i].0 != title
    ensures r.Some? ==> r.value < |s| && s[r.value].0 == title
    ensures r.Some? ==> forall i :: 0 <= i < r.value ==> s[i].0 != title
  {
    if s == [] then None
    else if s[0].0 == title then Some(0)
    else
      match IndexOf(s[1..], title)
      case Some(k) => Some(k + 1)
      case None => None
  }

  /** `_sections.get(title)`. */
  function Get(s: Sections, title: string): (r: Option<real>)
    ensures r.None? <==> forall i :: 0 <= i < |s| ==> s[i].0 != title
  {
    match IndexOf(s, title)
    case Some(i) => Some(s[i].1)
    case None => None
  }

  /** The sum of all values, accumulated in insertion order. */
  function SumValues(s: Sections): real
  {
    if s == [] then 0.0 else SumValues(s[..|s| - 1]) + s[|s| - 1].1
  }

  /** The dictionary after `add_section(title)`. */
  function AddedSection(s: Sections, title: string): (r: Sections)
    ensures UniqueTitles(s) ==> UniqueTitles(r)
    ensures Get(r, title).Some?
    ensures Get(s, title).Some? ==> r == s
    ensures Get(s, title).None? ==> |r| == |s| + 1 && r[..|s|] == s && Get(r, title) == Some(0.0)
    ensures forall t :: t != title ==> Get(r, t) == Get(s, t)
  {
    if Get(s, title).None? then
      var r := s + [(title, 0.0)];
      GetAppend(s, title, 0.0);
      assert r[..|s|] == s;
      r
    else
      s
  }

  /** The dictionary after `update(title, total)`. */
  function UpdatedSection(s: Sections, title: string, total: real): (r: Sections)
    ensures |r| == |s|
    ensures forall i :: 0 <= i < |s| ==> r[i].0 == s[i].0
    ensures UniqueTitles(s) ==> UniqueTitles(r)
    ensures Get(s, title).Some? ==> Get(r, title) == Some(total)
    ensures Get(s, title).None? ==> r == s
    ensures forall t :: t != title ==> Get(r, t) == Get(s, t)
  {
    match IndexOf(s, title)
    case Some(i) =>
      var r := s[i := (title, total)];
      assert forall t :: IndexOf(r, t) == IndexOf(s, t) by {
        forall t
          ensures IndexOf(r, t) == IndexOf(s, t)
        {
          IndexOfSameTitles(r, s, t);
        }
      }
      r
    case None => s
  }

  /** `_set_table`'s layout of the dictionary. */
  ghost predicate IsSummaryOf(table: seq<TotalRow>, s: Sections)
  {
    && |table| == |s| + 1
    && (forall i :: 0 <= i < |s| ==> table[i] == TotalRow(s[i].0, s[i].1))
    && table[|s|] == TotalRow(MonthlySavings, SumValues(s))
  }

  lemma {:induction false} GetAppend(s: Sections, title: string, value: real)
    requires Get(s, title).None?
    ensures Get(s + [(title, value)], title) == Some(value)
    ensures forall t :: t != title ==> Get(s + [(title, value)], t) == Get(s, t)
  {
    var r := s + [(title, value)];
    assert IndexOf(r, title) == Some(|s|) by {
      assert forall i :: 0 <= i < |s| ==> r[i] == s[i];
      assert IndexOf(s, title).None?;
      assert r[|s|].0 == title;
    }
    forall t | t != title
      ensures Get(r, t) == Get(s, t)
    {
      AppendOtherTitle(s, (title, value), t);
    }
  }

  lemma {:induction false} AppendOtherTitle(s: Sections, entry: (string, real), t: string)
    requires entry.0 != t
    ensures IndexOf(s + [entry], t) == IndexOf(s, t)
    decreases |s|
  {
    if s != [] {
      assert (s + [entry])[1..] == s[1..] + [entry];
      AppendOtherTitle(s[1..], entry, t);
    }
  }

  lemma {:induction false} IndexOfSameTitles(r: Sections, s: Sections, t: string)
    requires |r| == |s|
    requires forall i :: 0 <= i < |s| ==> r[i].0 == s[i].0
    ensures IndexOf(r, t) == IndexOf(s, t)
    decreases |s|
  {
    if s != [] {
      IndexOfSameTitles(r[1..], s[1..], t);
    }
  }

  /** With unique keys, every entry is what `get` finds for its title. */
  lemma GetEntry(s: Sections, i: nat)
    requires UniqueTitles(s) && i < |s|
    ensures Get(s, s[i].0) == Some(s[i].1)
  {
  }

  /** Registering a title a second time changes nothing. */
  lemma AddSectionIdempotent(s: Sections, title: string)
    ensures AddedSection(AddedSection(s, title), title) == AddedSection(s, title)
  {
  }

  /** Registering a section does not change the monthly savings. */
  lemma AddSectionKeepsSum(s: Sections, title: string)
    ensures SumValues(AddedSection(s, title)) == SumValues(s)
  {
    var r := AddedSection(s, title);
    if r != s {
      assert r[..|r| - 1] == s;
    }
  }

  /** The monthly savings of two runs of sections are the sum of each run's total. */
  lemma {:induction false} SumValuesConcat(a: Sections, b: Sections)
    ensures SumValues(a + b) == SumValues(a) + SumValues(b)
    decreases |b|
  {
    if b == [] {
      assert a + b == a;
    } else {
      var n := |b| - 1;
      assert (a + b)[..|a + b| - 1] == a + b[..n];
      SumValuesConcat(a, b[..n]);
    }
  }

  /** Overwriting one entry changes the sum by the difference of the two values. */
  lemma {:induction false} SumPointUpdate(s: Sections, i: nat, entry: (string, real))
    requires i < |s|
    ensures SumValues(s[i := entry]) == SumValues(s) - s[i].1 + entry.1
    decreases |s|
  {
    var r := s[i := entry];
    var n := |s| - 1;
    if i == n {
      assert r[..n] == s[..n];
    } else {
      SumPointUpdate(s[..n], i, entry);
      assert r[..n] == s[..n][i := entry];
    }
  }

  /** After `update(title, total)` the monthly savings move by total minus the old value. */
  lemma UpdateSectionSum(s: Sections, title: string, total: real)
    ensures Get(s, title).Some? ==>
      SumValues(UpdatedSection(s, title, total)) == SumValues(s) - Get(s, title).value + total
    ensures Get(s, title).None? ==> SumValues(UpdatedSection(s, title, total)) == SumValues(s)
  {
    match IndexOf(s, title)
    case Some(i) => SumPointUpdate(s, i, (title, total));
    case None =>
  }

  /** A repeated update with the same value is a no-op. */
  lemma UpdateSectionIdempotent(s: Sections, title: string, total: real)
    ensures UpdatedSection(UpdatedSection(s, title, total), title, total) == UpdatedSection(s, title, total)
  {
    var r := UpdatedSection(s, title, total);
    match IndexOf(s, title)
    case Some(i) =>
      IndexOfSameTitles(r, s, title);
      assert r[i := (title, total)] == r;
    case None =>
  }
}
