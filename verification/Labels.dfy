/** Label and selector lists: cleaning, sorting, and matching. */
module Labels {
  import opened Text
  import opened Sorting

  /** The loop of normalizeLabels: trim, drop empty ones, keep first occurrences. */
  function Clean(labels: seq<string>): seq<string> {
    if labels == [] then []
    else
      var before := Clean(labels[..|labels| - 1]);
      var trimmed := TrimSpace(labels[|labels| - 1]);
      if trimmed == [] || trimmed in before then before else before + [trimmed]
  }

  function NormalizeLabels(labels: seq<string>): seq<string> {
    Sort(Clean(labels), StringOrder())
  }

  /** What a label list means. */
  function LabelSet(labels: seq<string>): set<string> {
    set l | l in labels && TrimSpace(l) != [] :: TrimSpace(l)
  }

  lemma {:induction false} CleanIsTheSet(labels: seq<string>)
    ensures NoDuplicates(Clean(labels))
    ensures forall x :: x in Clean(labels) <==> x in LabelSet(labels)
  {
    if labels != [] {
      var init, last := labels[..|labels| - 1], labels[|labels| - 1];
      CleanIsTheSet(init);
      var trimmed := TrimSpace(last);
      if trimmed != [] && trimmed !in Clean(init) {
        NoDuplicatesAppend(Clean(init), trimmed);
      }
      assert labels == init + [last];
      assert LabelSet(labels) == LabelSet(init) + (if trimmed == [] then {} else {trimmed});
    }
  }

  /** Normalising gives the sorted list of exactly the trimmed nonempty labels, each once. */
  lemma NormalizeLabelsIsTheSet(labels: seq<string>)
    ensures Ascending(NormalizeLabels(labels), StringOrder()) && NoDuplicates(NormalizeLabels(labels))
    ensures forall x :: x in NormalizeLabels(labels) <==> x in LabelSet(labels)
  {
    CleanIsTheSet(labels);
    StringOrderIsTotal();
    var c, n := Clean(labels), NormalizeLabels(labels);
    SortSorts(c, StringOrder());
    forall x ensures x in n <==> x in c {
      assert x in multiset(n) <==> x in multiset(c);
    }
    SamesDuplicates(c, n);
  }

  lemma SamesDuplicates(a: seq<string>, b: seq<string>)
    requires NoDuplicates(a) && multiset(a) == multiset(b)
    ensures NoDuplicates(b)
  {
    forall x ensures multiset(b)[x] <= 1 {
      NoDuplicatesCounts(a, x);
    }
    CountsNoDuplicates(b);
  }

  lemma {:induction false} CountsNoDuplicates(s: seq<string>)
    requires forall x :: multiset(s)[x] <= 1
    ensures NoDuplicates(s)
  {
    if s != [] {
      assert s == [s[0]] + s[1..];
      assert multiset(s)[s[0]] == 1 + multiset(s[1..])[s[0]];
      forall x ensures multiset(s[1..])[x] <= 1 {
        assert multiset(s)[x] <= 1;
      }
      CountsNoDuplicates(s[1..]);
    }
  }

  /** Order and repetition of labels never matter, and nothing else is lost. */
  lemma NormalizedEqualIffSameSet(a: seq<string>, b: seq<string>)
    ensures NormalizeLabels(a) == NormalizeLabels(b) <==> LabelSet(a) == LabelSet(b)
  {
    NormalizeLabelsIsTheSet(a);
    NormalizeLabelsIsTheSet(b);
    if LabelSet(a) == LabelSet(b) {
      CleanIsTheSet(a);
      CleanIsTheSet(b);
      StringOrderIsTotal();
      SameElementsSortAlike(Clean(a), Clean(b), StringOrder());
    } else {
      assert exists x :: (x in LabelSet(a)) != (x in LabelSet(b));
    }
  }

  method Normalize(labels: seq<string>) returns (normalized: seq<string>)
    ensures normalized == NormalizeLabels(labels)
  {
    normalized := [];
    for i := 0 to |labels|
      invariant normalized == Clean(labels[..i])
    {
      assert labels[..i + 1][..i] == labels[..i];
      var trimmed := TrimSpace(labels[i]);
      if trimmed == [] || trimmed in normalized {
        continue;
      }
      normalized := normalized + [trimmed];
    }
    assert labels[..|labels|] == labels;
    normalized := Sort(normalized, StringOrder());
  }

  /** Does any label a client has occur among the wanted ones? */
  method MatchesAnyLabel(have: seq<string>, wanted: seq<string>) returns (yes: bool)
    ensures yes <==> exists l :: l in have && l in wanted
  {
    if |have| == 0 || |wanted| == 0 {
      return false;
    }
    for i := 0 to |have|
      invariant forall j :: 0 <= j < i ==> have[j] !in wanted
    {
      if have[i] in wanted {
        return true;
      }
    }
    return false;
  }
}
