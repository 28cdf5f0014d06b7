/**
 * Worked inputs for the reconcile chain, each proved from the definitions: close times merge into
 * the earliest, the proximity test looks at every earlier record and not only at the survivors,
 * a specific record hides a generic one, and out-of-order input comes out sorted.
 */
module ReconcileExamples {
  import opened Wrappers
  import opened Attributes
  import opened Reconcile
  import opened Examples

  /** Three records that all ask to skip the others, at 10, 12 and 50 seconds. */
  predicate CloseRecords(a: Candidate, b: Candidate, c: Candidate) {
    a.time == 10 && b.time == 12 && c.time == 50 &&
    a.showMe && b.showMe && c.showMe && a.skipOthers
  }

  lemma CloseVisible(a: Candidate, b: Candidate, c: Candidate)
    requires CloseRecords(a, b, c)
    ensures Visible([a, b, c]) == [a, b, c]
  {
    var s := [a, b, c];
    assert AnySkipOthers(s) by {
      assert s[0].skipOthers;
    }
    forall x | x in s
      ensures x.showMe
    {
      assert x == a || x == b || x == c;
    }
    ShownOnlyOfShown(s);
  }

  lemma CloseSorted(a: Candidate, b: Candidate, c: Candidate)
    requires CloseRecords(a, b, c)
    ensures SortByTime([a, b, c]) == [a, b, c]
  {
    var s := [a, b, c];
    forall i, j | 0 <= i < j < |s|
      ensures s[i].time <= s[j].time
    {
      assert s[0].time == 10 && s[1].time == 12 && s[2].time == 50;
    }
    SortOfSorted(s);
  }

  lemma CloseKept(a: Candidate, b: Candidate, c: Candidate)
    requires CloseRecords(a, b, c)
    ensures KeptAt([a, b, c], 0) && !KeptAt([a, b, c], 1) && KeptAt([a, b, c], 2)
  {
    var s := [a, b, c];
    assert FindIndexNear(s, 10, 0) == 0;
    assert FindIndexNear(s, 12, 0) == 0;
    assert FindIndexNear(s, 50, 2) == 2;
    assert FindIndexNear(s, 50, 1) == 2;
    assert FindIndexNear(s, 50, 0) == 2;
  }

  /** 10 and 12 are within TIME_DELTA: only the earlier survives; 50 is far from both. */
  lemma CloseTimesMerge(a: Candidate, b: Candidate, c: Candidate)
    requires CloseRecords(a, b, c)
    ensures ReconcileAll([a, b, c]) == [a, c]
  {
    var s := [a, b, c];
    CloseVisible(a, b, c);
    CloseSorted(a, b, c);
    CloseKept(a, b, c);
    assert KeepFrom(s, 2) == [c] + KeepFrom(s, 3);
    assert KeepFrom(s, 1) == KeepFrom(s, 2);
    assert KeepFrom(s, 0) == [a] + KeepFrom(s, 1);
  }

  /** Three records that do not skip others, at 0, 4 and 8 seconds. */
  predicate ChainRecords(a: Candidate, b: Candidate, c: Candidate) {
    a.time == 0 && b.time == 4 && c.time == 8 &&
    !a.skipOthers && !b.skipOthers && !c.skipOthers
  }

  lemma ChainVisibleSorted(a: Candidate, b: Candidate, c: Candidate)
    requires ChainRecords(a, b, c)
    ensures Visible([a, b, c]) == [a, b, c] && SortByTime([a, b, c]) == [a, b, c]
  {
    var s := [a, b, c];
    assert !AnySkipOthers(s);
    SortOfSorted(s);
  }

  lemma ChainKept(a: Candidate, b: Candidate, c: Candidate)
    requires ChainRecords(a, b, c)
    ensures KeptAt([a, b, c], 0) && !KeptAt([a, b, c], 1) && !KeptAt([a, b, c], 2)
  {
    var s := [a, b, c];
    assert FindIndexNear(s, 0, 0) == 0;
    assert FindIndexNear(s, 4, 0) == 0;
    assert FindIndexNear(s, 8, 1) == 1;
    assert FindIndexNear(s, 8, 0) == 1;
  }

  /**
   * 8 is more than TIME_DELTA from the survivor 0 but within it of the dropped 4, and `findIndex`
   * finds 4 first: a chain of close times collapses into its first member.
   */
  lemma ChainCollapses(a: Candidate, b: Candidate, c: Candidate)
    requires ChainRecords(a, b, c)
    ensures ReconcileAll([a, b, c]) == [a]
  {
    var s := [a, b, c];
    ChainVisibleSorted(a, b, c);
    ChainKept(a, b, c);
    assert KeepFrom(s, 2) == KeepFrom(s, 3);
    assert KeepFrom(s, 1) == KeepFrom(s, 2);
    assert KeepFrom(s, 0) == [a] + KeepFrom(s, 1);
  }

  /** A recap record at 40 seconds hides a generic record at 5 seconds, far as they are apart. */
  lemma SpecificHidesGeneric(g: Candidate, r: Candidate)
    requires g == NewCandidate(5, "0:05", Generic) && r == NewCandidate(40, "0:40", Recap)
    ensures ReconcileAll([g, r]) == [r]
  {
    var s := [g, r];
    assert AnySkipOthers(s) by {
      assert s[1].skipOthers;
    }
    assert s[1..] == [r];
    assert ShownOnly([r]) == [r] by {
      assert [r][1..] == [];
    }
    assert Visible(s) == [r];
    SortOfSorted([r]);
    assert KeptAt([r], 0);
    assert KeepFrom([r], 1) == [];
  }

  /** Shown records at 50 and then 10 seconds come out as 10 then 50. */
  lemma OutOfOrderSorted(a: Candidate, b: Candidate)
    requires a.time == 50 && b.time == 10 && a.showMe && b.showMe && a.skipOthers
    ensures ReconcileAll([a, b]) == [b, a]
  {
    var s := [a, b];
    var t := [b, a];
    assert AnySkipOthers(s) by {
      assert s[0].skipOthers;
    }
    ShownOnlyOfShown(s);
    assert s[1..] == [b];
    assert SortByTime([b]) == [b] by {
      assert [b][1..] == [];
    }
    assert Insert(a, [b]) == t by {
      assert [b][1..] == [];
    }
    assert SortByTime(s) == t;
    assert KeptAt(t, 0);
    assert FindIndexNear(t, 50, 1) == 1;
    assert KeptAt(t, 1);
    assert KeepFrom(t, 2) == [];
    assert KeepFrom(t, 1) == [a];
  }

  /** An empty payload and a message from another origin show no button. */
  lemma EmptyPayloadShowsNothing()
    ensures Handle(TrustedOrigin, Some(AnnounceType), Some([])) == []
    ensures Handle("https://example.com", Some(AnnounceType),
                   Some([Announced(10, "0:10", "skip")])) == []
  {
  }

  const DualButtons := [NewCandidate(60, "1:00", Recap), NewCandidate(300, "5:00", TitleCard)]

  lemma DualButtonsReconciled()
    ensures ReconcileAll(DualButtons) == DualButtons
  {
    assert DualButtons[0].time == 60 && DualButtons[1].time == 300;
    assert AnySkipOthers(DualButtons) by {
      assert DualButtons[0].skipOthers;
    }
    ShownOnlyOfShown(DualButtons);
    SortOfSorted(DualButtons);
    DedupOfSpread(DualButtons);
  }

  /** One message carrying the dual-timestamp comment shows a recap and a title-card button. */
  lemma DualCommentButtons()
    ensures Handle(TrustedOrigin, Some(AnnounceType), Some([Announced(0, "0:00", Dual)])) ==
      DualButtons
  {
    DualTimestampComment();
    HandleOneEntry(Announced(0, "0:00", Dual), DualButtons);
    DualButtonsReconciled();
  }

  /** One entry whose `create` throws suppresses every button of the message. */
  lemma OneThrowHidesAll()
    ensures Handle(TrustedOrigin, Some(AnnounceType),
                   Some([Announced(10, "0:10", "skip"), Announced(60, "1:00", Early)])) == []
  {
    var data := Some([Announced(10, "0:10", "skip"), Announced(60, "1:00", Early)]);
    TokenBeforeKeywordsThrows();
    assert Created(data.value[1]).Err?;
    HandleShowsButtons(TrustedOrigin, Some(AnnounceType), data);
  }
}
