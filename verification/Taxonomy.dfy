/** Migration 0082: remapping stored values to one vocabulary, and the validator
    that checks it. */
module Taxonomy {
  import opened Wrappers
  import opened Text
  import opened Vocabulary

  // ---- Remapping one array --------------------------------------------------------

  function MapOne(m: map<string, string>, v: string): string {
    if v in m then m[v] else v
  }

  function RemapArray(values: seq<string>, m: map<string, string>): seq<string> {
    seq(|values|, i requires 0 <= i < |values| => MapOne(m, values[i]))
  }

  function Reverse(m: map<string, string>): map<string, string>
    requires OneToOne(m)
  {
    map k | k in m :: m[k] := k
  }

  /** Remapping twice is remapping once. */
  lemma RemapIsIdempotent(values: seq<string>, m: map<string, string>)
    requires Reversible(m)
    ensures |RemapArray(values, m)| == |values|
    ensures RemapArray(RemapArray(values, m), m) == RemapArray(values, m)
  {
  }

  /** The way back restores an array exactly if and only if none of its elements
      was already a slug of the table before the upgrade. */
  lemma ReverseRestoresIff(values: seq<string>, m: map<string, string>)
    requires Reversible(m)
    ensures RemapArray(RemapArray(values, m), Reverse(m)) == values
            <==> forall i :: 0 <= i < |values| ==> values[i] !in m.Values
  {
    var there := RemapArray(values, m);
    var back := RemapArray(there, Reverse(m));
    forall i | 0 <= i < |values| ensures back[i] == values[i] <==> values[i] !in m.Values {
      if values[i] in m {
        assert values[i] !in m.Values;
      } else if values[i] in m.Values {
        var k :| k in m && m[k] == values[i];
        assert back[i] == k;
      }
    }
  }

  // ---- The validator ------------------------------------------------------------------

  datatype Validated = Valid(values: seq<string>) | NotAllowed(item: string) | Empty

  function Stripped(values: seq<string>): seq<string> {
    seq(|values|, i requires 0 <= i < |values| => Strip(values[i]))
  }

  /** Each value where it first occurs. */
  function Dedupe(values: seq<string>): (r: seq<string>)
    ensures forall v :: v in r <==> v in values
  {
    if |values| == 0 then []
    else
      var last := values[|values| - 1];
      var before := Dedupe(values[..|values| - 1]);
      assert values == values[..|values| - 1] + [last];
      if last in values[..|values| - 1] then before else before + [last]
  }

  /** Some occurrence of `first` has no `second` up to it. */
  ghost predicate OccursBefore(values: seq<string>, first: string, second: string) {
    exists k :: 0 <= k < |values| && values[k] == first && second !in values[..k + 1]
  }

  lemma OccursBeforeExtends(values: seq<string>, last: string, first: string, second: string)
    requires OccursBefore(values, first, second)
    ensures OccursBefore(values + [last], first, second)
  {
    var k :| 0 <= k < |values| && values[k] == first && second !in values[..k + 1];
    assert (values + [last])[..k + 1] == values[..k + 1] && (values + [last])[k] == first;
  }

  lemma NewValueOccursLater(values: seq<string>, last: string, first: string)
    requires first in values && last !in values
    ensures OccursBefore(values + [last], first, last)
  {
    var k :| 0 <= k < |values| && values[k] == first;
    assert (values + [last])[..k + 1] == values[..k + 1] && (values + [last])[k] == first;
    assert forall x :: x in values[..k + 1] ==> x in values;
  }

  /** No value twice, and in the order of first occurrence. */
  lemma {:induction false} DedupeKeepsFirstOccurrences(values: seq<string>)
    ensures forall i, j :: 0 <= i < j < |Dedupe(values)| ==>
              Dedupe(values)[i] != Dedupe(values)[j] && OccursBefore(values, Dedupe(values)[i], Dedupe(values)[j])
  {
    if |values| > 0 {
      var n := |values| - 1;
      var last, before, r := values[n], Dedupe(values[..n]), Dedupe(values);
      DedupeKeepsFirstOccurrences(values[..n]);
      assert values == values[..n] + [last];
      forall i, j | 0 <= i < j < |r| ensures r[i] != r[j] && OccursBefore(values, r[i], r[j]) {
        assert r[i] == before[i] && r[i] in values[..n];
        if j < |before| {
          OccursBeforeExtends(values[..n], last, r[i], r[j]);
        } else {
          NewValueOccursLater(values[..n], last, r[i]);
        }
      }
    }
  }

  ghost predicate AllowedUpTo(items: seq<string>, allowed: set<string>, n: int) {
    0 <= n <= |items| && forall i :: 0 <= i < n ==> items[i] in allowed
  }

  ghost predicate FirstRefused(items: seq<string>, allowed: set<string>, i: int, item: string) {
    AllowedUpTo(items, allowed, i) && i < |items| && item == items[i] && item !in allowed
  }

  /** What `_validate` promises, for the trimmed entries: the first that is not
      allowed is named; otherwise they come back without repetitions. */
  ghost predicate IsValidation(items: seq<string>, allowed: set<string>, r: Validated) {
    match r
    case NotAllowed(item) => exists i :: FirstRefused(items, allowed, i, item)
    case Empty => items == []
    case Valid(cleaned) => items != [] && cleaned == Dedupe(items) && AllowedUpTo(items, allowed, |items|)
  }

  /** The loop's state after the first i entries. */
  ghost predicate CleanedUpTo(items: seq<string>, allowed: set<string>, i: int,
                              cleaned: seq<string>, seen: set<string>) {
    && AllowedUpTo(items, allowed, i)
    && cleaned == Dedupe(items[..i])
    && seen == set v | v in cleaned
  }

  lemma CleanOneMore(items: seq<string>, allowed: set<string>, i: nat, cleaned: seq<string>, seen: set<string>)
    requires i < |items| && CleanedUpTo(items, allowed, i, cleaned, seen) && items[i] in allowed
    ensures if items[i] in seen then CleanedUpTo(items, allowed, i + 1, cleaned, seen)
            else CleanedUpTo(items, allowed, i + 1, cleaned + [items[i]], seen + {items[i]})
  {
    assert items[..i + 1] == items[..i] + [items[i]];
    DedupeOneMore(items[..i], items[i]);
    MembersOfLonger(cleaned, items[i]);
  }

  lemma DedupeOneMore(items: seq<string>, last: string)
    ensures Dedupe(items + [last]) == if last in Dedupe(items) then Dedupe(items) else Dedupe(items) + [last]
  {
  }

  lemma MembersOfLonger(cleaned: seq<string>, item: string)
    ensures (set v | v in cleaned + [item]) == (set v | v in cleaned) + {item}
  {
  }

  lemma CleaningResult(items: seq<string>, allowed: set<string>, cleaned: seq<string>, seen: set<string>)
    requires CleanedUpTo(items, allowed, |items|, cleaned, seen)
    ensures IsValidation(items, allowed, if cleaned == [] then Empty else Valid(cleaned))
  {
    assert items[..|items|] == items;
    if items != [] {
      assert items[0] in items;
    }
  }

  method Validate(values: seq<string>, allowed: set<string>) returns (r: Validated)
    ensures IsValidation(Stripped(values), allowed, r)
  {
    ghost var items := Stripped(values);
    var cleaned: seq<string> := [];
    var seen: set<string> := {};
    for i := 0 to |values|
      invariant CleanedUpTo(items, allowed, i, cleaned, seen)
    {
      var item := Strip(values[i]);
      assert item == items[i];
      if item !in allowed {
        assert FirstRefused(items, allowed, i, item);
        return NotAllowed(item);
      }
      CleanOneMore(items, allowed, i, cleaned, seen);
      if item in seen {
        continue;
      }
      seen := seen + {item};
      cleaned := cleaned + [item];
    }
    CleaningResult(items, allowed, cleaned, seen);
    if cleaned == [] {
      return Empty;
    }
    return Valid(cleaned);
  }

  /** Every entry is a legacy or a canonical value. */
  predicate Known(values: seq<string>, m: map<string, string>, allowed: set<string>) {
    forall i :: 0 <= i < |values| ==> values[i] in m || values[i] in allowed
  }

  lemma SlugIsTrimmed(a: string)
    requires Slug(a)
    ensures Strip(a) == a
  {
  }

  lemma RemappedIsKnown(values: seq<string>, m: map<string, string>, allowed: set<string>)
    requires MapsInto(m, allowed) && Known(values, m, allowed) && forall a :: a in allowed ==> Slug(a)
    ensures Stripped(RemapArray(values, m)) == RemapArray(values, m)
    ensures AllowedUpTo(RemapArray(values, m), allowed, |values|)
  {
    var remapped := RemapArray(values, m);
    forall i | 0 <= i < |values| ensures Strip(remapped[i]) == remapped[i] && remapped[i] in allowed {
      SlugIsTrimmed(remapped[i]);
    }
  }

  lemma KnownValuesValidate(values: seq<string>, m: map<string, string>, allowed: set<string>, r: Validated)
    requires MapsInto(m, allowed) && values != [] && Known(values, m, allowed)
    requires forall a :: a in allowed ==> Slug(a)
    requires IsValidation(Stripped(RemapArray(values, m)), allowed, r)
    ensures r == Valid(Dedupe(RemapArray(values, m)))
  {
    RemappedIsKnown(values, m, allowed);
  }

  /** Any non-empty array of legacy or canonical values passes the validator after
      the upgrade, which returns the remapped values without repetitions. */
  lemma UpgradedSectorsValidate(values: seq<string>, r: Validated)
    requires values != [] && Known(values, SECTOR_MAP, SECTORS)
    requires IsValidation(Stripped(RemapArray(values, SECTOR_MAP)), SECTORS, r)
    ensures r == Valid(Dedupe(RemapArray(values, SECTOR_MAP)))
  {
    TablesMapIntoCanonical();
    forall a { SectorsAreSlugs(a); }
    KnownValuesValidate(values, SECTOR_MAP, SECTORS, r);
  }

  lemma UpgradedFunctionsValidate(values: seq<string>, r: Validated)
    requires values != [] && Known(values, FUNCTION_MAP, FUNCTIONS)
    requires IsValidation(Stripped(RemapArray(values, FUNCTION_MAP)), FUNCTIONS, r)
    ensures r == Valid(Dedupe(RemapArray(values, FUNCTION_MAP)))
  {
    TablesMapIntoCanonical();
    forall a { FunctionsAreSlugs(a); }
    KnownValuesValidate(values, FUNCTION_MAP, FUNCTIONS, r);
  }

  lemma UpgradedJurisdictionsValidate(values: seq<string>, r: Validated)
    requires values != [] && Known(values, JURISDICTION_MAP, JURISDICTIONS)
    requires IsValidation(Stripped(RemapArray(values, JURISDICTION_MAP)), JURISDICTIONS, r)
    ensures r == Valid(Dedupe(RemapArray(values, JURISDICTION_MAP)))
  {
    TablesMapIntoCanonical();
    forall a { JurisdictionsAreSlugs(a); }
    KnownValuesValidate(values, JURISDICTION_MAP, JURISDICTIONS, r);
  }

  // ---- The tables ------------------------------------------------------------------------

  /** The array columns of an attestor row; NULL reads as empty. */
  datatype Row = Row(sectors: Option<seq<string>>, functions: Option<seq<string>>, jurisdictions: Option<seq<string>>)

  datatype Maps = Maps(sectors: map<string, string>, functions: map<string, string>, jurisdictions: map<string, string>)

  const FORWARD := Maps(SECTOR_MAP, FUNCTION_MAP, JURISDICTION_MAP)

  function OrEmpty(values: Option<seq<string>>): seq<string> {
    if values.None? then [] else values.value
  }

  function RemapRow(row: Row, maps: Maps): Row {
    Row(Some(RemapArray(OrEmpty(row.sectors), maps.sectors)),
        Some(RemapArray(OrEmpty(row.functions), maps.functions)),
        Some(RemapArray(OrEmpty(row.jurisdictions), maps.jurisdictions)))
  }

  function RemapTable(rows: seq<Row>, maps: Maps): seq<Row> {
    seq(|rows|, i requires 0 <= i < |rows| => RemapRow(rows[i], maps))
  }

  /** The jurisdictions the upgrade logs for manual cleanup: those that stay
      outside the canonical ones after remapping. */
  function Unmapped(values: seq<string>, m: map<string, string>, canonical: set<string>): seq<string> {
    if |values| == 0 then []
    else Unmapped(values[..|values| - 1], m, canonical) +
         (if MapOne(m, values[|values| - 1]) !in canonical then [values[|values| - 1]] else [])
  }

  /** The log entry for a row is empty if and only if all its remapped
      jurisdictions are canonical. */
  lemma {:induction false} NothingLoggedIff(values: seq<string>, m: map<string, string>, canonical: set<string>)
    ensures Unmapped(values, m, canonical) == [] <==> forall v :: v in RemapArray(values, m) ==> v in canonical
  {
    if |values| > 0 {
      var n := |values| - 1;
      NothingLoggedIff(values[..n], m, canonical);
      assert RemapArray(values, m) == RemapArray(values[..n], m) + [MapOne(m, values[n])];
    }
  }

  datatype Warning = Warning(row: nat, unmapped: seq<string>)

  function RowReport(row: Row, i: nat, m: map<string, string>, canonical: set<string>): seq<Warning> {
    var unmapped := Unmapped(OrEmpty(row.jurisdictions), m, canonical);
    if unmapped == [] then [] else [Warning(i, unmapped)]
  }

  /** One log entry for each of the first n rows that has something to report. */
  function Warnings(rows: seq<Row>, n: nat, m: map<string, string>, canonical: set<string>): seq<Warning>
    requires n <= |rows|
  {
    if n == 0 then [] else Warnings(rows, n - 1, m, canonical) + RowReport(rows[n - 1], n - 1, m, canonical)
  }

  method CollectUnmapped(values: seq<string>, m: map<string, string>, canonical: set<string>)
    returns (unmapped: seq<string>)
    ensures unmapped == Unmapped(values, m, canonical)
  {
    unmapped := [];
    for i := 0 to |values|
      invariant unmapped == Unmapped(values[..i], m, canonical)
    {
      assert values[..i + 1][..i] == values[..i];
      if MapOne(m, values[i]) !in canonical {
        unmapped := unmapped + [values[i]];
      }
    }
    assert values[..|values|] == values;
  }

  method ReportRow(row: Row, i: nat, m: map<string, string>, canonical: set<string>) returns (report: seq<Warning>)
    ensures report == RowReport(row, i, m, canonical)
  {
    var unmapped := CollectUnmapped(OrEmpty(row.jurisdictions), m, canonical);
    report := if unmapped == [] then [] else [Warning(i, unmapped)];
  }

  /** `_remap_rows` on one table: every row is rewritten in place, and on the way
      forward the jurisdictions left over are reported. */
  method RemapRows(table: array<Row>, maps: Maps, canonical: set<string>, forward: bool)
    returns (warnings: seq<Warning>)
    modifies table
    ensures table[..] == RemapTable(old(table[..]), maps)
    ensures warnings == if forward then Warnings(old(table[..]), table.Length, maps.jurisdictions, canonical) else []
  {
    ghost var rows := table[..];
    warnings := [];
    for i := 0 to table.Length
      invariant forall k :: 0 <= k < i ==> table[k] == RemapRow(rows[k], maps)
      invariant forall k :: i <= k < table.Length ==> table[k] == rows[k]
      invariant warnings == if forward then Warnings(rows, i, maps.jurisdictions, canonical) else []
    {
      var row := table[i];
      if forward {
        var report := ReportRow(row, i, maps.jurisdictions, canonical);
        warnings := warnings + report;
      }
      table[i] := RemapRow(row, maps);
    }
  }

  /** The migration runs over both attestor tables. */
  method Upgrade(applications: array<Row>, profiles: array<Row>) returns (warnings: seq<seq<Warning>>)
    requires applications != profiles
    modifies applications, profiles
    ensures applications[..] == RemapTable(old(applications[..]), FORWARD)
    ensures profiles[..] == RemapTable(old(profiles[..]), FORWARD)
    ensures warnings == [Warnings(old(applications[..]), applications.Length, JURISDICTION_MAP, JURISDICTIONS),
                         Warnings(old(profiles[..]), profiles.Length, JURISDICTION_MAP, JURISDICTIONS)]
  {
    var first := RemapRows(applications, FORWARD, JURISDICTIONS, true);
    var second := RemapRows(profiles, FORWARD, JURISDICTIONS, true);
    warnings := [first, second];
  }

  method Downgrade(applications: array<Row>, profiles: array<Row>)
    requires applications != profiles
    modifies applications, profiles
    ensures applications[..] == RemapTable(old(applications[..]), BackwardMaps())
    ensures profiles[..] == RemapTable(old(profiles[..]), BackwardMaps())
  {
    var backward := BackwardMaps();
    var _ := RemapRows(applications, backward, JURISDICTIONS, false);
    var _ := RemapRows(profiles, backward, JURISDICTIONS, false);
  }

  function BackwardMaps(): Maps
  {
    SectorsAreReversible();
    FunctionsAreReversible();
    JurisdictionsAreReversible();
    Maps(Reverse(SECTOR_MAP), Reverse(FUNCTION_MAP), Reverse(JURISDICTION_MAP))
  }

  predicate Untouchable(values: Option<seq<string>>, m: map<string, string>) {
    values.Some? && forall i :: 0 <= i < |values.value| ==> values.value[i] !in m.Values
  }

  /** Downgrading after upgrading restores a table exactly if and only if no row
      held a NULL array or a slug of the tables before. */
  lemma DowngradeRestoresIff(rows: seq<Row>)
    ensures RemapTable(RemapTable(rows, FORWARD), BackwardMaps()) == rows
            <==> forall i :: 0 <= i < |rows| ==>
                   && Untouchable(rows[i].sectors, SECTOR_MAP)
                   && Untouchable(rows[i].functions, FUNCTION_MAP)
                   && Untouchable(rows[i].jurisdictions, JURISDICTION_MAP)
  {
    var back := RemapTable(RemapTable(rows, FORWARD), BackwardMaps());
    forall i | 0 <= i < |rows|
      ensures back[i] == rows[i] <==>
              && Untouchable(rows[i].sectors, SECTOR_MAP)
              && Untouchable(rows[i].functions, FUNCTION_MAP)
              && Untouchable(rows[i].jurisdictions, JURISDICTION_MAP)
    {
      SectorsAreReversible();
      FunctionsAreReversible();
      JurisdictionsAreReversible();
      ColumnRestoredIff(rows[i].sectors, SECTOR_MAP);
      ColumnRestoredIff(rows[i].functions, FUNCTION_MAP);
      ColumnRestoredIff(rows[i].jurisdictions, JURISDICTION_MAP);
    }
  }

  lemma ColumnRestoredIff(values: Option<seq<string>>, m: map<string, string>)
    requires Reversible(m)
    ensures Some(RemapArray(RemapArray(OrEmpty(values), m), Reverse(m))) == values <==> Untouchable(values, m)
  {
    ReverseRestoresIff(OrEmpty(values), m);
  }
}
