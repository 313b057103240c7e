/**
 * How validateRow lays the corrections of a row over its source data: mapped fields overwrite their
 * column, unmapped ones get a column of their own under a header that the row does not use yet.
 */
module ImportOverlay {
  import opened Basics
  import opened ImportMapping

  const CORRECTION_PREFIX := "__dawah_correction:"

  type Source = map<string, Json>
  type Corrections = seq<(string, Json)>

  /** The loop's variables: effectiveSource, effectiveMapping and correctedColumns. */
  datatype Overlay = Overlay(source: Source, mapping: Mapping, columns: set<string>)

  // ----- Fresh headers -----

  /** The keys that a candidate header could still collide with, now or after growing. */
  function LongKeys(keys: set<string>, header: string): set<string> {
    set k | k in keys && |header| <= |k|
  }

  lemma LongKeysShrink(keys: set<string>, header: string)
    requires header in keys
    ensures |LongKeys(keys, "_" + header)| < |LongKeys(keys, header)|
  {
    var before, after := LongKeys(keys, header), LongKeys(keys, "_" + header);
    assert header in before && header !in after;
    SmallerSet(after, before - {header});
  }

  lemma SmallerSet(a: set<string>, b: set<string>)
    requires a <= b
    ensures |a| <= |b|
  {
    assert b == a + (b - a);
  }

  /** The candidate itself if it is free, or the first free one among those with underscores before it. */
  function FreshHeader(keys: set<string>, candidate: string): (header: string)
    ensures header !in keys
    decreases |LongKeys(keys, candidate)|
  {
    if candidate !in keys then candidate
    else
      LongKeysShrink(keys, candidate);
      FreshHeader(keys, "_" + candidate)
  }

  function Underscored(candidate: string, n: nat): string {
    if n == 0 then candidate else "_" + Underscored(candidate, n - 1)
  }

  lemma {:induction false} UnderscoreInside(candidate: string, n: nat)
    ensures Underscored("_" + candidate, n) == Underscored(candidate, n + 1)
  {
    if n > 0 { UnderscoreInside(candidate, n - 1); }
  }

  ghost predicate FirstFree(keys: set<string>, candidate: string, n: nat) {
    FreshHeader(keys, candidate) == Underscored(candidate, n) &&
    forall m: nat :: m < n ==> Underscored(candidate, m) in keys
  }

  /** The search stops at the first free header: the candidate with as few underscores as possible. */
  lemma {:induction false} FreshHeaderIsFirstFree(keys: set<string>, candidate: string)
    ensures exists n: nat :: FirstFree(keys, candidate, n)
    decreases |LongKeys(keys, candidate)|
  {
    if candidate !in keys {
      assert FirstFree(keys, candidate, 0);
    } else {
      LongKeysShrink(keys, candidate);
      FreshHeaderIsFirstFree(keys, "_" + candidate);
      var n: nat :| FirstFree(keys, "_" + candidate, n);
      UnderscoreInside(candidate, n);
      forall m: nat | m < n + 1 ensures Underscored(candidate, m) in keys {
        if m > 0 { UnderscoreInside(candidate, m - 1); }
      }
      assert FirstFree(keys, candidate, n + 1);
    }
  }

  // ----- The overlay -----

  function HeaderFor(overlay: Overlay, mapping: Mapping, field: string): string {
    if field in mapping then mapping[field]
    else FreshHeader(overlay.source.Keys, CORRECTION_PREFIX + field)
  }

  function ApplyOne(overlay: Overlay, mapping: Mapping, correction: (string, Json)): Overlay {
    var header := HeaderFor(overlay, mapping, correction.0);
    Overlay(
      overlay.source[header := correction.1],
      if correction.0 in mapping then overlay.mapping else overlay.mapping[correction.0 := header],
      overlay.columns + {header})
  }

  function Apply(source: Source, mapping: Mapping, corrections: Corrections): Overlay {
    if corrections == [] then Overlay(source, mapping, {})
    else
      var n := |corrections| - 1;
      ApplyOne(Apply(source, mapping, corrections[..n]), mapping, corrections[n])
  }

  /** The correction loop of validateRow, with its inner loop that looks for an unused header. */
  method ApplyCorrections(source: Source, mapping: Mapping, corrections: Corrections) returns (overlay: Overlay)
    ensures overlay == Apply(source, mapping, corrections)
  {
    var effectiveSource, effectiveMapping, correctedColumns := source, mapping, {};
    for i := 0 to |corrections|
      invariant Overlay(effectiveSource, effectiveMapping, correctedColumns) == Apply(source, mapping, corrections[..i])
    {
      assert corrections[..i + 1][..i] == corrections[..i];
      var (field, value) := corrections[i];
      var header;
      if field in mapping {
        header := mapping[field];
      } else {
        header := CORRECTION_PREFIX + field;
        while header in effectiveSource
          invariant FreshHeader(effectiveSource.Keys, header) ==
                    FreshHeader(effectiveSource.Keys, CORRECTION_PREFIX + field)
          decreases |LongKeys(effectiveSource.Keys, header)|
        {
          LongKeysShrink(effectiveSource.Keys, header);
          header := "_" + header;
        }
        effectiveMapping := effectiveMapping[field := header];
      }
      effectiveSource := effectiveSource[header := value];
      correctedColumns := correctedColumns + {header};
    }
    assert corrections[..|corrections|] == corrections;
    overlay := Overlay(effectiveSource, effectiveMapping, correctedColumns);
  }

  // ----- What the overlay should mean -----

  /** What the domain validation reads for a field; an absent cell reads as undefined. */
  function View(source: Source, mapping: Mapping, field: string): Option<Json> {
    if field in mapping && mapping[field] in source then Some(source[mapping[field]]) else None
  }

  function CorrectionOf(corrections: Corrections, field: string): Option<Json> {
    if corrections == [] then None
    else
      var n := |corrections| - 1;
      if corrections[n].0 == field then Some(corrections[n].1) else CorrectionOf(corrections[..n], field)
  }

  function Expected(source: Source, mapping: Mapping, corrections: Corrections, field: string): Option<Json> {
    var correction := CorrectionOf(corrections, field);
    if correction.Some? then correction else View(source, mapping, field)
  }

  /** Field by field, the overlaid row reads as the source overridden by the corrections. */
  ghost predicate Exact(source: Source, mapping: Mapping, corrections: Corrections) {
    var overlay := Apply(source, mapping, corrections);
    forall field :: View(overlay.source, overlay.mapping, field) == Expected(source, mapping, corrections, field)
  }

  /** The column that the k-th correction is written to. */
  function HeaderAt(source: Source, mapping: Mapping, corrections: Corrections, k: nat): string
    requires k < |corrections|
  {
    HeaderFor(Apply(source, mapping, corrections[..k]), mapping, corrections[k].0)
  }

  /** The k-th correction makes up a header that is also the mapped column of `field`. */
  predicate Captures(source: Source, mapping: Mapping, corrections: Corrections, k: nat, field: string) {
    k < |corrections| && corrections[k].0 !in mapping && field in mapping &&
    mapping[field] == HeaderAt(source, mapping, corrections, k)
  }

  predicate LaterCorrectedTo(corrections: Corrections, k: nat, field: string, value: Json) {
    exists j :: k < j < |corrections| && corrections[j] == (field, value)
  }

  /** No made-up header is a mapped column, unless that column's own correction happens to agree. */
  ghost predicate HarmlessHeaders(source: Source, mapping: Mapping, corrections: Corrections) {
    forall k: nat, field :: Captures(source, mapping, corrections, k, field) ==>
      LaterCorrectedTo(corrections, k, field, corrections[k].1)
  }

  // ----- Who wrote what -----

  lemma {:induction false} KeysOnlyGrow(source: Source, mapping: Mapping, corrections: Corrections, k: nat)
    requires k <= |corrections|
    ensures Apply(source, mapping, corrections[..k]).source.Keys <= Apply(source, mapping, corrections).source.Keys
    decreases |corrections|
  {
    if k < |corrections| {
      var n := |corrections| - 1;
      assert corrections[..n][..k] == corrections[..k];
      KeysOnlyGrow(source, mapping, corrections[..n], k);
    } else {
      assert corrections[..k] == corrections;
    }
  }

  /** A header is in use once its correction has been applied. */
  lemma HeaderIsTaken(source: Source, mapping: Mapping, corrections: Corrections, k: nat, j: nat)
    requires k < j <= |corrections|
    ensures HeaderAt(source, mapping, corrections, k) in Apply(source, mapping, corrections[..j]).source
  {
    assert corrections[..j][..k + 1][..k] == corrections[..k];
    KeysOnlyGrow(source, mapping, corrections[..j], k + 1);
    assert corrections[..j][..k + 1] == corrections[..k + 1];
    assert corrections[..k + 1][..k] == corrections[..k];
  }

  /** Headers made up for several unmapped corrections are pairwise distinct, and unused by the row. */
  lemma FreshHeadersAreDistinct(source: Source, mapping: Mapping, corrections: Corrections, k: nat, j: nat)
    requires k < j < |corrections| && corrections[j].0 !in mapping
    ensures HeaderAt(source, mapping, corrections, k) != HeaderAt(source, mapping, corrections, j)
    ensures HeaderAt(source, mapping, corrections, j) !in source
  {
    HeaderIsTaken(source, mapping, corrections, k, j);
    assert corrections[..j][..0] == [];
    KeysOnlyGrow(source, mapping, corrections[..j], 0);
  }

  lemma FreshHeaderIsUnused(source: Source, mapping: Mapping, corrections: Corrections, k: nat)
    requires k < |corrections| && corrections[k].0 !in mapping
    ensures HeaderAt(source, mapping, corrections, k) !in source
  {
    assert corrections[..k][..0] == [];
    KeysOnlyGrow(source, mapping, corrections[..k], 0);
  }

  /** The last correction written to a column decides what it reads. */
  lemma {:induction false} LastWriter(source: Source, mapping: Mapping, corrections: Corrections, k: nat)
    requires k < |corrections|
    requires forall j :: k < j < |corrections| ==>
               HeaderAt(source, mapping, corrections, j) != HeaderAt(source, mapping, corrections, k)
    ensures var header := HeaderAt(source, mapping, corrections, k);
            var after := Apply(source, mapping, corrections).source;
            header in after && after[header] == corrections[k].1
    decreases |corrections|
  {
    var n := |corrections| - 1;
    if k < n {
      var front := corrections[..n];
      SameHeadersInPrefix(source, mapping, corrections, n);
      var header := HeaderAt(source, mapping, corrections, k);
      assert HeaderAt(source, mapping, corrections, n) != header;
      forall j | k < j < n ensures HeaderAt(source, mapping, front, j) != HeaderAt(source, mapping, front, k) {
        assert HeaderAt(source, mapping, corrections, j) != header;
      }
      LastWriter(source, mapping, front, k);
      assert header in Apply(source, mapping, front).source && front[k] == corrections[k];
    }
  }

  lemma SameHeadersInPrefix(source: Source, mapping: Mapping, corrections: Corrections, n: nat)
    requires n <= |corrections|
    ensures forall k :: 0 <= k < n ==>
              HeaderAt(source, mapping, corrections[..n], k) == HeaderAt(source, mapping, corrections, k)
  {
    forall k | 0 <= k < n
      ensures HeaderAt(source, mapping, corrections[..n], k) == HeaderAt(source, mapping, corrections, k)
    {
      assert corrections[..n][..k] == corrections[..k];
    }
  }

  ghost predicate IsCorrected(source: Source, mapping: Mapping, corrections: Corrections, column: string) {
    exists k :: 0 <= k < |corrections| && HeaderAt(source, mapping, corrections, k) == column
  }

  /** The corrected columns are the ones that some correction was written to. */
  lemma {:induction false} CorrectedColumnsExactly(
    source: Source, mapping: Mapping, corrections: Corrections, column: string)
    ensures column in Apply(source, mapping, corrections).columns <==> IsCorrected(source, mapping, corrections, column)
  {
    if corrections != [] {
      var n := |corrections| - 1;
      CorrectedColumnsExactly(source, mapping, corrections[..n], column);
      CorrectedOneMore(source, mapping, corrections, column);
      assert Apply(source, mapping, corrections).columns ==
             Apply(source, mapping, corrections[..n]).columns + {HeaderAt(source, mapping, corrections, n)};
    }
  }

  lemma CorrectedOneMore(source: Source, mapping: Mapping, corrections: Corrections, column: string)
    requires corrections != []
    ensures var n := |corrections| - 1;
            IsCorrected(source, mapping, corrections, column) <==>
            IsCorrected(source, mapping, corrections[..n], column) ||
            HeaderAt(source, mapping, corrections, n) == column
  {
    var n := |corrections| - 1;
    SameHeadersInPrefix(source, mapping, corrections, n);
    if k :| 0 <= k < n && HeaderAt(source, mapping, corrections, k) == column {
      assert HeaderAt(source, mapping, corrections[..n], k) == column;
    }
    if k :| 0 <= k < n && HeaderAt(source, mapping, corrections[..n], k) == column {
      assert HeaderAt(source, mapping, corrections, k) == column;
    }
  }

  /** Columns that no correction was written to are as they were. */
  lemma {:induction false} OtherColumnsUntouched(
    source: Source, mapping: Mapping, corrections: Corrections, column: string)
    requires forall k :: 0 <= k < |corrections| ==> HeaderAt(source, mapping, corrections, k) != column
    ensures var after := Apply(source, mapping, corrections).source;
            (column in after <==> column in source) && (column in source ==> after[column] == source[column])
    decreases |corrections|
  {
    if corrections != [] {
      var n := |corrections| - 1;
      SameHeadersInPrefix(source, mapping, corrections, n);
      assert HeaderAt(source, mapping, corrections, n) != column;
      OtherColumnsUntouched(source, mapping, corrections[..n], column);
    }
  }

  lemma {:induction false} MappingAfter(source: Source, mapping: Mapping, corrections: Corrections, field: string)
    requires DistinctNames(corrections)
    ensures var after := Apply(source, mapping, corrections).mapping;
            && (field in mapping ==> field in after && after[field] == mapping[field])
            && (field !in mapping && CorrectionOf(corrections, field).None? ==> field !in after)
            && (forall k :: 0 <= k < |corrections| && corrections[k].0 == field && field !in mapping ==>
                  field in after && after[field] == HeaderAt(source, mapping, corrections, k))
    decreases |corrections|
  {
    if corrections != [] {
      var n := |corrections| - 1;
      SameHeadersInPrefix(source, mapping, corrections, n);
      MappingAfter(source, mapping, corrections[..n], field);
      assert forall k :: 0 <= k < n ==> corrections[..n][k] == corrections[k];
    }
  }

  lemma {:induction false} CorrectionAt(corrections: Corrections, field: string)
    requires DistinctNames(corrections)
    ensures CorrectionOf(corrections, field).None? <==> forall k :: 0 <= k < |corrections| ==> corrections[k].0 != field
    ensures forall k :: 0 <= k < |corrections| && corrections[k].0 == field ==>
              CorrectionOf(corrections, field) == Some(corrections[k].1)
  {
    if corrections != [] {
      var n := |corrections| - 1;
      CorrectionAt(corrections[..n], field);
      assert forall k :: 0 <= k < n ==> corrections[..n][k] == corrections[k];
      if CorrectionOf(corrections, field).None? {
        forall k | 0 <= k < |corrections| ensures corrections[k].0 != field {
          if k < n { assert corrections[..n][k].0 != field; }
        }
      }
    }
  }

  // ----- When the overlay is exact -----

  /** The only corrections that can share a column are a made-up header and the later correction of its owner. */
  lemma SharedHeaders(source: Source, mapping: Mapping, corrections: Corrections, k: nat, j: nat)
    requires DistinctNames(corrections) && Injective(mapping) && k < j < |corrections|
    requires HeaderAt(source, mapping, corrections, k) == HeaderAt(source, mapping, corrections, j)
    ensures Captures(source, mapping, corrections, k, corrections[j].0)
  {
    if corrections[j].0 !in mapping {
      FreshHeadersAreDistinct(source, mapping, corrections, k, j);
    }
  }

  lemma HarmlessMeansExact(source: Source, mapping: Mapping, corrections: Corrections, field: string)
    requires DistinctNames(corrections) && Injective(mapping)
    requires HarmlessHeaders(source, mapping, corrections)
    ensures var overlay := Apply(source, mapping, corrections);
            View(overlay.source, overlay.mapping, field) == Expected(source, mapping, corrections, field)
  {
    MappingAfter(source, mapping, corrections, field);
    CorrectionAt(corrections, field);
    if k :| 0 <= k < |corrections| && corrections[k].0 == field {
      var header := HeaderAt(source, mapping, corrections, k);
      if j :| k < j < |corrections| && HeaderAt(source, mapping, corrections, j) == header {
        SharedHeaders(source, mapping, corrections, k, j);
        assert LaterCorrectedTo(corrections, k, corrections[j].0, corrections[k].1);
        var i :| k < i < |corrections| && corrections[i] == (corrections[j].0, corrections[k].1);
        assert i == j;
        forall m | j < m < |corrections| ensures HeaderAt(source, mapping, corrections, m) != header {
          if HeaderAt(source, mapping, corrections, m) == header {
            SharedHeaders(source, mapping, corrections, j, m);
          }
        }
        LastWriter(source, mapping, corrections, j);
      } else {
        LastWriter(source, mapping, corrections, k);
      }
    } else if field in mapping {
      forall k | 0 <= k < |corrections| ensures HeaderAt(source, mapping, corrections, k) != mapping[field] {
        assert !Captures(source, mapping, corrections, k, field);
      }
      OtherColumnsUntouched(source, mapping, corrections, mapping[field]);
    }
  }

  lemma ExactMeansHarmless(source: Source, mapping: Mapping, corrections: Corrections, k: nat, field: string)
    requires DistinctNames(corrections) && Injective(mapping)
    requires Exact(source, mapping, corrections) && Captures(source, mapping, corrections, k, field)
    ensures LaterCorrectedTo(corrections, k, field, corrections[k].1)
  {
    var overlay := Apply(source, mapping, corrections);
    var header := mapping[field];
    MappingAfter(source, mapping, corrections, field);
    MappingAfter(source, mapping, corrections, corrections[k].0);
    CorrectionAt(corrections, field);
    CorrectionAt(corrections, corrections[k].0);
    assert View(overlay.source, overlay.mapping, field) == Expected(source, mapping, corrections, field);
    assert View(overlay.source, overlay.mapping, corrections[k].0) ==
           Expected(source, mapping, corrections, corrections[k].0);
    FreshHeaderIsUnused(source, mapping, corrections, k);
    assert corrections[..|corrections|] == corrections;
    HeaderIsTaken(source, mapping, corrections, k, |corrections|);
    assert CorrectionOf(corrections, field).Some?;
    var j :| 0 <= j < |corrections| && corrections[j].0 == field;
    assert HeaderAt(source, mapping, corrections, j) == header;
    if j < k { SharedHeaders(source, mapping, corrections, j, k); }
    assert overlay.source[header] == corrections[k].1 == corrections[j].1;
  }

  /**
   * The overlay is exact if and only if no header made up for an unmapped correction is the column of
   * some mapped field, unless that field is itself corrected later and to the same value.
   */
  lemma OverlayIsExactIff(source: Source, mapping: Mapping, corrections: Corrections)
    requires DistinctNames(corrections) && Injective(mapping)
    ensures Exact(source, mapping, corrections) <==> HarmlessHeaders(source, mapping, corrections)
  {
    if HarmlessHeaders(source, mapping, corrections) {
      forall field { HarmlessMeansExact(source, mapping, corrections, field); }
    }
    if Exact(source, mapping, corrections) {
      forall k: nat, field | Captures(source, mapping, corrections, k, field)
        ensures LaterCorrectedTo(corrections, k, field, corrections[k].1)
      {
        ExactMeansHarmless(source, mapping, corrections, k, field);
      }
    }
  }

  /** A row with a cell in every mapped column is always overlaid exactly. */
  lemma FullRowsAreExact(source: Source, mapping: Mapping, corrections: Corrections)
    requires DistinctNames(corrections) && Injective(mapping)
    requires forall f :: f in mapping ==> mapping[f] in source
    ensures Exact(source, mapping, corrections)
  {
    forall k: nat, field | Captures(source, mapping, corrections, k, field) ensures false {
      FreshHeaderIsUnused(source, mapping, corrections, k);
    }
    OverlayIsExactIff(source, mapping, corrections);
  }

  /**
   * A blank cell is no key of its row, so its column can be captured: correcting the unmapped members here
   * also fills the internal note, whose mapped column is the blank one.
   */
  lemma CaptureExample()
    ensures var column := "__dawah_correction:members";
            var source: Source := map["Guest" := String("Sara"), "Phone" := String("0512345678")];
            var mapping: Mapping := map["displayName" := "Guest", "phoneNumber" := "Phone", "internalNote" := column];
            var overlay := Apply(source, mapping, [("members", String("Sara|Ali"))]);
            && Injective(mapping)
            && View(source, mapping, "internalNote") == None
            && View(overlay.source, overlay.mapping, "internalNote") == Some(String("Sara|Ali"))
  {
    var column := "__dawah_correction:members";
    assert column == CORRECTION_PREFIX + "members";
    var source: Source := map["Guest" := String("Sara"), "Phone" := String("0512345678")];
    var mapping: Mapping := map["displayName" := "Guest", "phoneNumber" := "Phone", "internalNote" := column];
    var corrections: Corrections := [("members", String("Sara|Ali"))];
    assert |column| == |CORRECTION_PREFIX| + 7;
    assert column != "Guest" && column != "Phone";
    assert corrections[..0] == [];
    assert Apply(source, mapping, []) == Overlay(source, mapping, {});
    assert "members" !in mapping;
    assert Apply(source, mapping, corrections) ==
           Overlay(source[column := String("Sara|Ali")], mapping["members" := column], {column});
  }
}
