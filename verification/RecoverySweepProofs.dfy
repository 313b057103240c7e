/** What a reconciliation sweep records, and what it never misses. */
module RecoverySweepProofs {
  import opened Basics
  import opened RecoverySweep

  // ----- The list -----

  ghost predicate NewestFirst(list: seq<Listed>) {
    forall i, j :: 0 <= i < j < |list| && HasId(list[i]) && HasId(list[j]) ==>
      FinishedOn(list[i].value) >= FinishedOn(list[j].value)
  }

  ghost predicate EndsWith(list: seq<Listed>, tail: seq<Listed>) {
    |tail| <= |list| && list[|list| - |tail|..] == tail
  }

  /** Between two queries, jobs may only be added at the front. */
  ghost predicate GrowsAtFront(lists: seq<seq<Listed>>) {
    forall j, k :: 0 <= j < k < |lists| ==> EndsWith(lists[k], lists[j])
  }

  /** It is enough to look at one query after the other. */
  lemma {:induction false} GrowsStepByStep(lists: seq<seq<Listed>>)
    requires forall k :: 0 <= k < |lists| - 1 ==> EndsWith(lists[k + 1], lists[k])
    ensures GrowsAtFront(lists)
  {
    if lists != [] {
      var n := |lists| - 1;
      forall k | 0 <= k < n - 1 ensures EndsWith(lists[..n][k + 1], lists[..n][k]) {
        assert EndsWith(lists[k + 1], lists[k]);
      }
      GrowsStepByStep(lists[..n]);
      forall j | 0 <= j < n ensures EndsWith(lists[n], lists[j]) {
        var last, before, tail := lists[n], lists[n - 1], lists[j];
        if j < n - 1 { assert EndsWith(lists[..n][n - 1], lists[..n][j]); }
        assert EndsWith(before, tail);
        assert last[|last| - |tail|..] == last[|last| - |before|..][|before| - |tail|..];
      }
      forall j, k | 0 <= j < k < |lists| ensures EndsWith(lists[k], lists[j]) {
        if k < n { assert EndsWith(lists[..n][k], lists[..n][j]); }
      }
    }
  }

  ghost predicate AllNewestFirst(lists: seq<seq<Listed>>) {
    forall k :: 0 <= k < |lists| ==> NewestFirst(lists[k])
  }

  lemma NextListEndsWith(lists: seq<seq<Listed>>, k: nat, tail: seq<Listed>)
    requires lists != [] && GrowsAtFront(lists) && EndsWith(ListAt(lists, k), tail)
    ensures EndsWith(ListAt(lists, k + 1), tail)
    ensures |ListAt(lists, k)| <= |ListAt(lists, k + 1)|
  {
    var now, next := ListAt(lists, k), ListAt(lists, k + 1);
    if k + 1 < |lists| {
      assert EndsWith(lists[k + 1], lists[k]);
      assert next[|next| - |tail|..] == next[|next| - |now|..][|now| - |tail|..];
    }
  }

  // ----- What the log and the memo know -----

  ghost predicate Recorded(log: seq<Record>, id: string) {
    exists n :: 0 <= n < |log| && log[n].job.id == Some(id)
  }

  ghost predicate Known(memo: set<string>, log: seq<Record>, id: string) {
    id in memo || Recorded(log, id)
  }

  /** Every memoised id was there when the sweep began, or has been recorded by it. */
  ghost predicate MemoIsKnown(sweep: Sweep, memo: set<string>) {
    forall id :: id in sweep.memo ==> Known(memo, sweep.log, id)
  }

  lemma RecordedStays(log: seq<Record>, more: seq<Record>, id: string)
    requires log <= more && Recorded(log, id)
    ensures Recorded(more, id)
  {
    var n :| 0 <= n < |log| && log[n].job.id == Some(id);
    assert more[n] == log[n];
  }

  lemma VisitKeepsTrack(sweep: Sweep, entry: Listed, now: int, accepts: nat -> bool, memo: set<string>)
    requires MemoIsKnown(sweep, memo)
    ensures var after := Visit(sweep, entry, now, accepts);
            && sweep.log <= after.log && MemoIsKnown(after, memo)
            && (entry.Some? && Qualifies(entry.value, now) && sweep.end == Going && after.end != Interrupted ==>
                  after.end == Going && Known(memo, after.log, entry.value.id.value))
  {
    var after := Visit(sweep, entry, now, accepts);
    if after.log != sweep.log {
      assert after.log[|sweep.log|].job.id == entry.value.id;
      forall id | id in after.memo ensures Known(memo, after.log, id) {
        if id in sweep.memo && Recorded(sweep.log, id) { RecordedStays(sweep.log, after.log, id); }
      }
    }
  }

  /** An interrupted or finished sweep stays so, and an older entry is what finishes it. */
  lemma {:induction false} PageCovers(
    sweep: Sweep, page: seq<Listed>, now: int, accepts: nat -> bool, memo: set<string>)
    requires MemoIsKnown(sweep, memo) && sweep.end == Going
    ensures var after := VisitAll(sweep, page, now, accepts);
            && sweep.log <= after.log && MemoIsKnown(after, memo)
            && (after.end == AllSeen ==>
                  exists j :: 0 <= j < |page| && HasId(page[j]) &&
                    FinishedOn(page[j].value) < now - EXHAUSTED_JOB_LOOKBACK)
            && (after.end == Going ==>
                  forall i :: 0 <= i < |page| && page[i].Some? && Qualifies(page[i].value, now) ==>
                    Known(memo, after.log, page[i].value.id.value))
  {
    if page != [] {
      var n := |page| - 1;
      var before := VisitAll(sweep, page[..n], now, accepts);
      PageCovers(sweep, page[..n], now, accepts, memo);
      VisitKeepsTrack(before, page[n], now, accepts, memo);
      var after := VisitAll(sweep, page, now, accepts);
      if after.end == AllSeen {
        if before.end == AllSeen {
          var j :| 0 <= j < n && HasId(page[..n][j]) && FinishedOn(page[..n][j].value) < now - EXHAUSTED_JOB_LOOKBACK;
          assert page[j] == page[..n][j];
        } else {
          assert HasId(page[n]);
        }
      }
      if after.end == Going {
        forall i | 0 <= i < |page| && page[i].Some? && Qualifies(page[i].value, now)
          ensures Known(memo, after.log, page[i].value.id.value)
        {
          if i < n {
            assert page[..n][i] == page[i];
            KnownStays(memo, before.log, after.log, page[i].value.id.value);
          }
        }
      }
    }
  }

  lemma KnownStays(memo: set<string>, log: seq<Record>, more: seq<Record>, id: string)
    requires log <= more && Known(memo, log, id)
    ensures Known(memo, more, id)
  {
    if id !in memo { RecordedStays(log, more, id); }
  }

  lemma NothingOldBefore(list: seq<Listed>, i: nat, now: int)
    requires NewestFirst(list) && i < |list| && list[i].Some? && Qualifies(list[i].value, now)
    ensures forall j :: 0 <= j < i && HasId(list[..i][j]) ==>
              FinishedOn(list[..i][j].value) >= now - EXHAUSTED_JOB_LOOKBACK
  {
  }

  /** When a page ends the sweep early, the entries before the one that ended it have been covered. */
  lemma {:induction false} EarlyEndCovers(
    sweep: Sweep, page: seq<Listed>, now: int, accepts: nat -> bool, memo: set<string>, i: nat)
    requires MemoIsKnown(sweep, memo) && sweep.end == Going && NewestFirst(page)
    requires i < |page| && page[i].Some? && Qualifies(page[i].value, now)
    requires VisitAll(sweep, page, now, accepts).end != Interrupted
    ensures Known(memo, VisitAll(sweep, page, now, accepts).log, page[i].value.id.value)
  {
    PageCovers(sweep, page[..i], now, accepts, memo);
    NothingOldBefore(page, i, now);
    var before := VisitAll(sweep, page[..i], now, accepts);
    if before.end == Interrupted { EndedVisitsChangeNothing(sweep, page, i, now, accepts); }
    VisitKeepsTrack(before, page[i], now, accepts, memo);
    assert page[..i + 1][..i] == page[..i];
    var at := VisitAll(sweep, page[..i + 1], now, accepts);
    if at.end != Going { EndedVisitsChangeNothing(sweep, page, i + 1, now, accepts); }
    LogOnlyGrows(sweep, page, i + 1, now, accepts, memo);
    KnownStays(memo, at.log, VisitAll(sweep, page, now, accepts).log, page[i].value.id.value);
  }

  lemma {:induction false} LogOnlyGrows(
    sweep: Sweep, page: seq<Listed>, n: nat, now: int, accepts: nat -> bool, memo: set<string>)
    requires MemoIsKnown(sweep, memo) && n <= |page|
    ensures VisitAll(sweep, page[..n], now, accepts).log <= VisitAll(sweep, page, now, accepts).log
    decreases |page|
  {
    if n == |page| {
      assert page[..n] == page;
    } else {
      assert page[..|page| - 1][..n] == page[..n];
      LogOnlyGrows(sweep, page[..|page| - 1], n, now, accepts, memo);
    }
  }

  // ----- Nothing is missed -----

  /** A page of entries newer than a qualifying one does not end the sweep. */
  lemma NewerPageGoesOn(
    sweep: Sweep, list: seq<Listed>, start: nat, now: int, accepts: nat -> bool, memo: set<string>, at: nat)
    requires MemoIsKnown(sweep, memo) && sweep.end == Going && NewestFirst(list)
    requires start + PAGE_SIZE <= at < |list| && list[at].Some? && Qualifies(list[at].value, now)
    requires VisitAll(sweep, PageOf(list, start), now, accepts).end != Interrupted
    ensures VisitAll(sweep, PageOf(list, start), now, accepts).end == Going
  {
    var page := PageOf(list, start);
    PageCovers(sweep, page, now, accepts, memo);
    NothingOldBefore(list, at, now);
    forall j | 0 <= j < |page| && HasId(page[j]) ensures FinishedOn(page[j].value) >= now - EXHAUSTED_JOB_LOOKBACK {
      assert page[j] == list[..at][start + j];
    }
  }

  /** Reading one page covers a qualifying entry, or leaves it ahead on a later page. */
  lemma PageCoversOrLeavesAhead(
    sweep: Sweep, list: seq<Listed>, start: nat, now: int, accepts: nat -> bool, memo: set<string>, at: nat)
    requires MemoIsKnown(sweep, memo) && sweep.end == Going && NewestFirst(list)
    requires start <= at < |list| && list[at].Some? && Qualifies(list[at].value, now)
    requires VisitAll(sweep, PageOf(list, start), now, accepts).end != Interrupted
    ensures PageOf(list, start) != []
    ensures var after := VisitAll(sweep, PageOf(list, start), now, accepts);
            && MemoIsKnown(after, memo)
            && (Known(memo, after.log, list[at].value.id.value) ||
                (after.end == Going && start + PAGE_SIZE <= at))
  {
    var page := PageOf(list, start);
    PageCovers(sweep, page, now, accepts, memo);
    if at < start + PAGE_SIZE {
      assert page[at - start] == list[at];
      EarlyEndCovers(sweep, page, now, accepts, memo, at - start);
    } else {
      NewerPageGoesOn(sweep, list, start, now, accepts, memo, at);
    }
  }

  /** Where entry `p` of the first list stands when the k-th query runs, if it has not been paged past. */
  ghost predicate StandsAt(lists: seq<seq<Listed>>, k: nat, p: nat, at: nat)
    requires lists != []
  {
    EndsWith(ListAt(lists, k), lists[0]) && p < |lists[0]| &&
    at == p + |ListAt(lists, k)| - |lists[0]| && k * PAGE_SIZE <= at
  }

  lemma StandsFurtherBack(lists: seq<seq<Listed>>, k: nat, p: nat, at: nat)
    requires lists != [] && GrowsAtFront(lists) && StandsAt(lists, k, p, at)
    ensures ListAt(lists, k)[at] == lists[0][p]
    ensures (k + 1) * PAGE_SIZE <= at ==> StandsAt(lists, k + 1, p, p + |ListAt(lists, k + 1)| - |lists[0]|)
  {
    var list := ListAt(lists, k);
    assert list[|list| - |lists[0]|..][p] == list[at];
    NextListEndsWith(lists, k, lists[0]);
  }

  lemma ClearingKeepsKnown(sweep: Sweep, memo: set<string>)
    requires MemoIsKnown(sweep, memo)
    ensures MemoIsKnown(AfterPage(sweep), memo) && AfterPage(sweep).end == sweep.end
  {
  }

  lemma AnyListIsNewestFirst(lists: seq<seq<Listed>>, k: nat)
    requires lists != [] && AllNewestFirst(lists)
    ensures NewestFirst(ListAt(lists, k))
  {
  }

  /** While an entry lies ahead, the sweep reads a page and goes on from there, unless that page ends it. */
  lemma OnePageOn(sweep: Sweep, lists: seq<seq<Listed>>, k: nat, now: int, accepts: nat -> bool, at: nat)
    requires lists != [] && k * PAGE_SIZE <= at < |ListAt(lists, k)|
    ensures var after := VisitAll(sweep, PageOf(ListAt(lists, k), k * PAGE_SIZE), now, accepts);
            PageOf(ListAt(lists, k), k * PAGE_SIZE) != [] &&
            SweepFrom(sweep, lists, k, now, accepts) ==
            if after.end != Going then after else SweepFrom(AfterPage(after), lists, k + 1, now, accepts)
  {
    OneMorePage(sweep, lists, k, now, accepts);
  }

  /** Either the sweep covers the entry in the end, or it goes on to the next page with the entry still ahead. */
  lemma SweepCoversOrGoesOn(
    sweep: Sweep, lists: seq<seq<Listed>>, k: nat, now: int, accepts: nat -> bool, memo: set<string>, at: nat)
    requires lists != [] && NewestFirst(ListAt(lists, k)) && MemoIsKnown(sweep, memo) && sweep.end == Going
    requires k * PAGE_SIZE <= at < |ListAt(lists, k)| && ListAt(lists, k)[at].Some?
    requires Qualifies(ListAt(lists, k)[at].value, now)
    requires SweepFrom(sweep, lists, k, now, accepts).end != Interrupted
    ensures var next := AfterPage(VisitAll(sweep, PageOf(ListAt(lists, k), k * PAGE_SIZE), now, accepts));
            var whole := SweepFrom(sweep, lists, k, now, accepts);
            Known(memo, whole.log, ListAt(lists, k)[at].value.id.value) ||
            (MemoIsKnown(next, memo) && next.end == Going && (k + 1) * PAGE_SIZE <= at &&
             whole == SweepFrom(next, lists, k + 1, now, accepts))
  {
    var list := ListAt(lists, k);
    var after := VisitAll(sweep, PageOf(list, k * PAGE_SIZE), now, accepts);
    var id := list[at].value.id.value;
    OnePageOn(sweep, lists, k, now, accepts, at);
    PageCoversOrLeavesAhead(sweep, list, k * PAGE_SIZE, now, accepts, memo, at);
    ClearingKeepsKnown(after, memo);
    if Known(memo, after.log, id) { CoveredStays(sweep, lists, k, now, accepts, memo, id); }
  }

  /** What one page covers is covered in the end. */
  lemma CoveredStays(
    sweep: Sweep, lists: seq<seq<Listed>>, k: nat, now: int, accepts: nat -> bool, memo: set<string>, id: string)
    requires lists != [] && PageOf(ListAt(lists, k), k * PAGE_SIZE) != []
    requires Known(memo, VisitAll(sweep, PageOf(ListAt(lists, k), k * PAGE_SIZE), now, accepts).log, id)
    ensures Known(memo, SweepFrom(sweep, lists, k, now, accepts).log, id)
  {
    var after := VisitAll(sweep, PageOf(ListAt(lists, k), k * PAGE_SIZE), now, accepts);
    OneMorePage(sweep, lists, k, now, accepts);
    if after.end == Going { LogGrowsToTheEnd(AfterPage(after), lists, k + 1, now, accepts); }
    KnownStays(memo, after.log, SweepFrom(sweep, lists, k, now, accepts).log, id);
  }

  /** Entry `p` of the first list is covered, or the sweep goes on from `next` with the entry ahead at `further`. */
  lemma StepTowards(
    sweep: Sweep, lists: seq<seq<Listed>>, k: nat, now: int, accepts: nat -> bool, memo: set<string>, p: nat, at: nat)
    returns (next: Sweep, further: int)
    requires lists != [] && GrowsAtFront(lists) && AllNewestFirst(lists)
    requires MemoIsKnown(sweep, memo) && sweep.end == Going
    requires StandsAt(lists, k, p, at) && lists[0][p].Some? && Qualifies(lists[0][p].value, now)
    requires SweepFrom(sweep, lists, k, now, accepts).end != Interrupted
    ensures Effort(lists, k + 1) < Effort(lists, k)
    ensures var whole := SweepFrom(sweep, lists, k, now, accepts);
            Known(memo, whole.log, lists[0][p].value.id.value) ||
            (further >= 0 && StandsAt(lists, k + 1, p, further) && MemoIsKnown(next, memo) && next.end == Going &&
             whole == SweepFrom(next, lists, k + 1, now, accepts))
  {
    next := AfterPage(VisitAll(sweep, PageOf(ListAt(lists, k), k * PAGE_SIZE), now, accepts));
    further := p + |ListAt(lists, k + 1)| - |lists[0]|;
    StandsFurtherBack(lists, k, p, at);
    AnyListIsNewestFirst(lists, k);
    SweepCoversOrGoesOn(sweep, lists, k, now, accepts, memo, at);
    OnePageOn(sweep, lists, k, now, accepts, at);
    EffortDrops(lists, k);
  }

  /** From the k-th query on, a job of the first list that has not been paged past is covered. */
  lemma {:induction false} RestOfTheSweepCovers(
    sweep: Sweep, lists: seq<seq<Listed>>, k: nat, now: int, accepts: nat -> bool, memo: set<string>, p: nat, at: nat)
    requires lists != [] && GrowsAtFront(lists) && AllNewestFirst(lists)
    requires MemoIsKnown(sweep, memo) && sweep.end == Going
    requires StandsAt(lists, k, p, at) && lists[0][p].Some? && Qualifies(lists[0][p].value, now)
    requires SweepFrom(sweep, lists, k, now, accepts).end != Interrupted
    ensures Known(memo, SweepFrom(sweep, lists, k, now, accepts).log, lists[0][p].value.id.value)
    decreases Effort(lists, k)
  {
    var next, further := StepTowards(sweep, lists, k, now, accepts, memo, p, at);
    if !Known(memo, SweepFrom(sweep, lists, k, now, accepts).log, lists[0][p].value.id.value) {
      RestOfTheSweepCovers(next, lists, k + 1, now, accepts, memo, p, further);
    }
  }

  lemma {:induction false} LogGrowsToTheEnd(
    sweep: Sweep, lists: seq<seq<Listed>>, k: nat, now: int, accepts: nat -> bool)
    requires lists != []
    ensures sweep.log <= SweepFrom(sweep, lists, k, now, accepts).log
    decreases Effort(lists, k)
  {
    var page := PageOf(ListAt(lists, k), k * PAGE_SIZE);
    if page != [] {
      var after := VisitAll(sweep, page, now, accepts);
      LogGrowsOverPage(sweep, page, now, accepts);
      EffortDrops(lists, k);
      if after.end == Going { LogGrowsToTheEnd(AfterPage(after), lists, k + 1, now, accepts); }
    }
  }

  lemma {:induction false} LogGrowsOverPage(sweep: Sweep, page: seq<Listed>, now: int, accepts: nat -> bool)
    ensures sweep.log <= VisitAll(sweep, page, now, accepts).log
  {
    if page != [] { LogGrowsOverPage(sweep, page[..|page| - 1], now, accepts); }
  }

  /**
   * A sweep that is not interrupted by a failing write leaves no job behind: every exhausted job inside the
   * lookback that was in the list when it began is recorded, unless it was memoised before.
   */
  lemma SweepMissesNothing(
    lists: seq<seq<Listed>>, now: int, accepts: nat -> bool, memo: set<string>, job: SendJob)
    requires lists != [] && GrowsAtFront(lists) && AllNewestFirst(lists)
    requires Some(job) in lists[0] && Qualifies(job, now)
    ensures var after := SweepFrom(Sweep(memo, [], Going), lists, 0, now, accepts);
            after.end == Interrupted || job.id.value in memo || Recorded(after.log, job.id.value)
  {
    var p :| 0 <= p < |lists[0]| && lists[0][p] == Some(job);
    if SweepFrom(Sweep(memo, [], Going), lists, 0, now, accepts).end != Interrupted {
      RestOfTheSweepCovers(Sweep(memo, [], Going), lists, 0, now, accepts, memo, p, p);
    }
  }

  // ----- Nothing else is recorded -----

  ghost predicate IsListed(lists: seq<seq<Listed>>, job: SendJob) {
    exists k :: 0 <= k < |lists| && Some(job) in lists[k]
  }

  /** Only qualifying jobs of the list are recorded, at the time they were exhausted. */
  ghost predicate LogIsSound(log: seq<Record>, lists: seq<seq<Listed>>, now: int) {
    forall n :: 0 <= n < |log| ==>
      Qualifies(log[n].job, now) && log[n].exhaustedAt == ExhaustedAt(log[n].job, now) && IsListed(lists, log[n].job)
  }

  lemma {:induction false} PageRecordsOnlyQualifying(
    sweep: Sweep, page: seq<Listed>, lists: seq<seq<Listed>>, now: int, accepts: nat -> bool)
    requires LogIsSound(sweep.log, lists, now)
    requires forall entry :: entry in page && entry.Some? ==> IsListed(lists, entry.value)
    ensures LogIsSound(VisitAll(sweep, page, now, accepts).log, lists, now)
  {
    if page != [] {
      PageRecordsOnlyQualifying(sweep, page[..|page| - 1], lists, now, accepts);
      assert page[|page| - 1] in page;
    }
  }

  lemma PageIsListed(lists: seq<seq<Listed>>, k: nat)
    requires lists != []
    ensures forall entry :: entry in PageOf(ListAt(lists, k), k * PAGE_SIZE) && entry.Some? ==>
              IsListed(lists, entry.value)
  {
    var list := ListAt(lists, k);
    forall entry | entry in PageOf(list, k * PAGE_SIZE) && entry.Some? ensures IsListed(lists, entry.value) {
      assert entry in list;
      assert list == lists[if k < |lists| then k else |lists| - 1];
    }
  }

  lemma {:induction false} SweepRecordsOnlyQualifying(
    sweep: Sweep, lists: seq<seq<Listed>>, k: nat, now: int, accepts: nat -> bool)
    requires lists != [] && LogIsSound(sweep.log, lists, now)
    ensures LogIsSound(SweepFrom(sweep, lists, k, now, accepts).log, lists, now)
    decreases Effort(lists, k)
  {
    var list := ListAt(lists, k);
    var page := PageOf(list, k * PAGE_SIZE);
    if page != [] {
      PageIsListed(lists, k);
      OneMorePage(sweep, lists, k, now, accepts);
      PageRecordsOnlyQualifying(sweep, page, lists, now, accepts);
      EffortDrops(lists, k);
      var after := VisitAll(sweep, page, now, accepts);
      if after.end == Going { SweepRecordsOnlyQualifying(AfterPage(after), lists, k + 1, now, accepts); }
    }
  }

  // ----- Nothing is recorded twice -----

  /** The memo is exactly what it was at first and what has been recorded, each id once. */
  ghost predicate OncePerId(sweep: Sweep, memo: set<string>) {
    && |sweep.memo| == |memo| + |sweep.log|
    && (forall n :: 0 <= n < |sweep.log| ==>
          && sweep.log[n].job.id.Some?
          && sweep.log[n].job.id.value in sweep.memo
          && sweep.log[n].job.id.value !in memo)
    && memo <= sweep.memo
    && (forall m, n :: 0 <= m < n < |sweep.log| ==> sweep.log[m].job.id != sweep.log[n].job.id)
  }

  lemma VisitRecordsOnce(sweep: Sweep, entry: Listed, now: int, accepts: nat -> bool, memo: set<string>)
    requires OncePerId(sweep, memo)
    ensures OncePerId(Visit(sweep, entry, now, accepts), memo)
  {
  }

  lemma {:induction false} PageRecordsOnce(
    sweep: Sweep, page: seq<Listed>, now: int, accepts: nat -> bool, memo: set<string>)
    requires OncePerId(sweep, memo)
    ensures OncePerId(VisitAll(sweep, page, now, accepts), memo)
  {
    if page != [] {
      PageRecordsOnce(sweep, page[..|page| - 1], now, accepts, memo);
      VisitRecordsOnce(VisitAll(sweep, page[..|page| - 1], now, accepts), page[|page| - 1], now, accepts, memo);
    }
  }

  /** As long as the memo never outgrows its limit, no id is recorded twice, or when it was memoised before. */
  lemma {:induction false} SweepRecordsOnce(
    sweep: Sweep, lists: seq<seq<Listed>>, k: nat, now: int, accepts: nat -> bool, memo: set<string>)
    requires lists != [] && OncePerId(sweep, memo)
    requires |memo| + |SweepFrom(sweep, lists, k, now, accepts).log| <= 50_000
    ensures OncePerId(SweepFrom(sweep, lists, k, now, accepts), memo)
    decreases Effort(lists, k)
  {
    var page := PageOf(ListAt(lists, k), k * PAGE_SIZE);
    if page != [] {
      var after := VisitAll(sweep, page, now, accepts);
      PageRecordsOnce(sweep, page, now, accepts, memo);
      EffortDrops(lists, k);
      if after.end == Going {
        LogGrowsToTheEnd(AfterPage(after), lists, k + 1, now, accepts);
        SweepRecordsOnce(AfterPage(after), lists, k + 1, now, accepts, memo);
      }
    }
  }

  // ----- In terms of the jobs' own fields -----

  /** Exhausted within the last twenty-four hours, by its own count of attempts, and not a confirmation. */
  predicate NeedsBookkeeping(job: SendJob, now: int) {
    && job.id != None && job.id != Some("")
    && job.operation != SendRsvpConfirmation
    && (match job.finishedOn case Some(at) => now - 86_400_000 <= at case None => now <= 86_400_000)
    && (match job.attempts case Some(limit) => limit <= job.attemptsMade case None => 1 <= job.attemptsMade)
  }

  lemma NeedsBookkeepingMeansQualifies(job: SendJob, now: int)
    ensures Qualifies(job, now) <==> NeedsBookkeeping(job, now)
  {
  }

  /**
   * What one sweep records: unless a failing write interrupts it, every job that needs it, was listed at its
   * start and not memoised; and only listed jobs that need it, for the time they finished, or for now if that
   * is not known.
   */
  lemma SweepRecordsExactly(
    lists: seq<seq<Listed>>, now: int, accepts: nat -> bool, memo: set<string>, job: SendJob)
    requires lists != [] && GrowsAtFront(lists) && AllNewestFirst(lists)
    ensures var after := SweepFrom(Sweep(memo, [], Going), lists, 0, now, accepts);
            var log := after.log;
            && (Some(job) in lists[0] && NeedsBookkeeping(job, now) && job.id.value !in memo ==>
                  Recorded(log, job.id.value) || after.end == Interrupted)
            && (forall n :: 0 <= n < |log| ==>
                  && NeedsBookkeeping(log[n].job, now) && IsListed(lists, log[n].job)
                  && log[n].exhaustedAt ==
                     match log[n].job.finishedOn case Some(at) => at case None => now)
  {
    NeedsBookkeepingMeansQualifies(job, now);
    if Some(job) in lists[0] && Qualifies(job, now) { SweepMissesNothing(lists, now, accepts, memo, job); }
    SweepRecordsOnlyQualifying(Sweep(memo, [], Going), lists, 0, now, accepts);
    var log := SweepFrom(Sweep(memo, [], Going), lists, 0, now, accepts).log;
    forall n | 0 <= n < |log| ensures NeedsBookkeeping(log[n].job, now) {
      NeedsBookkeepingMeansQualifies(log[n].job, now);
    }
  }

  /** The sweep reads the list a hundred jobs at a time. */
  lemma PagesOfAHundred(list: seq<Listed>, k: nat)
    ensures PageOf(list, k * PAGE_SIZE) ==
            if |list| <= 100 * k then [] else if |list| <= 100 * k + 100 then list[100 * k..]
            else list[100 * k..100 * k + 100]
  {
  }

  // ----- The memo stays small -----

  lemma {:induction false} PageAddsAtMostItsEntries(sweep: Sweep, page: seq<Listed>, now: int, accepts: nat -> bool)
    ensures |VisitAll(sweep, page, now, accepts).memo| <= |sweep.memo| + |page|
  {
    if page != [] { PageAddsAtMostItsEntries(sweep, page[..|page| - 1], now, accepts); }
  }

  /** A sweep never remembers more than fifty thousand jobs and a page. */
  lemma {:induction false} MemoStaysBounded(
    sweep: Sweep, lists: seq<seq<Listed>>, k: nat, now: int, accepts: nat -> bool)
    requires lists != [] && |sweep.memo| <= 50_000
    ensures |SweepFrom(sweep, lists, k, now, accepts).memo| <= 50_100
    decreases Effort(lists, k)
  {
    var page := PageOf(ListAt(lists, k), k * PAGE_SIZE);
    if page != [] {
      var after := VisitAll(sweep, page, now, accepts);
      PageAddsAtMostItsEntries(sweep, page, now, accepts);
      OneMorePage(sweep, lists, k, now, accepts);
      EffortDrops(lists, k);
      if after.end == Going { MemoStaysBounded(AfterPage(after), lists, k + 1, now, accepts); }
    }
  }
}
