/**
 The bounded set of CSRF tokens of a browser session. Issuing a token inserts it and deletes
 every token that is not among the first eight by creation time and hash, newest first.
 */
module CsrfWindow {
  import opened Sets

  /** A 32 byte hash; SQLite orders blobs of equal length like the numbers they spell. */
  type Digest = nat

  /** Creation time in nanoseconds, by token hash. */
  type Tokens = map<Digest, int>

  datatype Issued = Issued(token: Digest, at: int)

  const MAX_TOKENS: nat := 8

  /** `a` comes before `b` in the newest-first order. */
  predicate Ahead(m: Tokens, a: Digest, b: Digest)
    requires a in m && b in m
  {
    m[a] > m[b] || (m[a] == m[b] && a > b)
  }

  function AheadOf(m: Tokens, d: Digest): set<Digest>
    requires d in m
  {
    set e | e in m && Ahead(m, e, d)
  }

  /** What is left after deleting everything past the first MAX_TOKENS rows. */
  function Trim(m: Tokens): Tokens {
    map d | d in m && |AheadOf(m, d)| < MAX_TOKENS :: m[d]
  }

  /** A nonempty set of tokens has one that comes last. */
  lemma {:induction false} LastToken(m: Tokens, ds: set<Digest>) returns (last: Digest)
    requires ds != {} && forall d :: d in ds ==> d in m
    ensures last in ds && forall d :: d in ds && d != last ==> Ahead(m, d, last)
  {
    var some :| some in ds;
    last := some;
    if ds - {some} != {} {
      var rest := LastToken(m, ds - {some});
      if Ahead(m, some, rest) {
        last := rest;
      }
      assert forall d :: d in ds ==> d == some || d in ds - {some};
    } else {
      assert forall d :: d in ds && d != some ==> d in ds - {some};
    }
  }

  lemma TrimBounds(m: Tokens)
    ensures |Trim(m)| <= MAX_TOKENS
  {
    var kept := Trim(m).Keys;
    if kept != {} {
      var last := LastToken(m, kept);
      SubsetSize(kept - {last}, AheadOf(m, last));
    }
  }

  lemma TrimKeepsSmall(m: Tokens)
    requires |m| <= MAX_TOKENS
    ensures Trim(m) == m
  {
    forall d | d in m ensures |AheadOf(m, d)| < MAX_TOKENS {
      SubsetSize(AheadOf(m, d), m.Keys - {d});
    }
  }

  /** One token too many: exactly the last one goes. */
  lemma TrimDropsTheLast(m: Tokens, last: Digest)
    requires |m| == MAX_TOKENS + 1 && last in m
    requires forall d :: d in m && d != last ==> Ahead(m, d, last)
    ensures Trim(m) == m - {last}
  {
    assert AheadOf(m, last) == m.Keys - {last};
    forall d | d in m && d != last ensures |AheadOf(m, d)| < MAX_TOKENS {
      SubsetSize(AheadOf(m, d), m.Keys - {d} - {last});
    }
  }

  /** A token added to at most MAX_TOKENS others survives the trimming exactly when there was room
      for it, or when one of the others ranks behind it by time and hash. */
  lemma NewTokenSurvivesIff(m: Tokens, token: Digest, at: int)
    requires token !in m && |m| <= MAX_TOKENS
    ensures token in Trim(m[token := at])
       <==> |m| < MAX_TOKENS || exists e :: e in m && (m[e] < at || (m[e] == at && e < token))
  {
    var ahead := AheadOf(m[token := at], token);
    SubsetSize(ahead, m.Keys);
    if e :| e in m && (m[e] < at || (m[e] == at && e < token)) {
      SubsetSize(ahead, m.Keys - {e});
    } else {
      assert ahead == m.Keys;
    }
  }

  // ---- the window of recent issues --------------------------------------------------------

  function Recent(history: seq<Issued>): seq<Issued> {
    if |history| <= MAX_TOKENS then history else history[|history| - MAX_TOKENS..]
  }

  /** Every token was issued later than those before it. */
  ghost predicate Increasing(w: seq<Issued>) {
    w == [] || ((forall x :: x in w[1..] ==> w[0].at < x.at) && Increasing(w[1..]))
  }

  /** The tokens of a list of issues, each with its time. */
  function MapOf(w: seq<Issued>): Tokens {
    if w == [] then map[] else MapOf(w[1..])[w[0].token := w[0].at]
  }

  ghost predicate Distinct(w: seq<Issued>) {
    w == [] || (w[0].token !in MapOf(w[1..]) && Distinct(w[1..]))
  }

  lemma {:induction false} MapOfSize(w: seq<Issued>)
    requires Distinct(w)
    ensures |MapOf(w)| == |w|
  {
    if w != [] {
      MapOfSize(w[1..]);
    }
  }

  lemma {:induction false} MapOfAppend(w: seq<Issued>, x: Issued)
    requires Distinct(w) && x.token !in MapOf(w)
    ensures Distinct(w + [x]) && MapOf(w + [x]) == MapOf(w)[x.token := x.at]
  {
    if w == [] {
      assert [x][1..] == [];
    } else {
      assert (w + [x])[1..] == w[1..] + [x];
      MapOfAppend(w[1..], x);
    }
  }

  lemma {:induction false} MapOfLater(w: seq<Issued>, t: int)
    requires forall x :: x in w ==> t < x.at
    ensures forall d :: d in MapOf(w) ==> t < MapOf(w)[d]
  {
    if w != [] {
      MapOfLater(w[1..], t);
    }
  }

  lemma {:induction false} IncreasingAppend(w: seq<Issued>, x: Issued)
    requires Increasing(w) && forall y :: y in w ==> y.at < x.at
    ensures Increasing(w + [x])
  {
    if w == [] {
      assert [x][1..] == [];
    } else {
      assert (w + [x])[1..] == w[1..] + [x];
      IncreasingAppend(w[1..], x);
    }
  }

  lemma {:induction false} IncreasingLast(w: seq<Issued>)
    requires Increasing(w) && w != []
    ensures forall y :: y in w ==> y.at <= w[|w| - 1].at
  {
    if |w| > 1 {
      IncreasingLast(w[1..]);
      assert w == [w[0]] + w[1..];
      assert w[1..][|w| - 2] == w[|w| - 1];
    }
  }

  lemma {:induction false} IncreasingSuffix(w: seq<Issued>, k: nat)
    requires Increasing(w) && k <= |w|
    ensures Increasing(w[k..])
  {
    if k > 0 {
      IncreasingSuffix(w[1..], k - 1);
      assert w[1..][k - 1..] == w[k..];
    }
  }

  /** What is stored is the window of recent issues. */
  ghost predicate Holds(m: Tokens, history: seq<Issued>) {
    m == MapOf(Recent(history)) && Distinct(Recent(history)) && Increasing(history)
  }

  lemma OldestGoes(w: seq<Issued>)
    requires Increasing(w) && Distinct(w) && |w| == MAX_TOKENS + 1
    ensures Trim(MapOf(w)) == MapOf(w[1..]) && Distinct(w[1..])
  {
    MapOfSize(w);
    MapOfLater(w[1..], w[0].at);
    TrimDropsTheLast(MapOf(w), w[0].token);
  }

  lemma RecentStep(history: seq<Issued>, x: Issued)
    ensures var w := Recent(history) + [x];
            Recent(history + [x]) == if |history| < MAX_TOKENS then w else w[1..]
  {
  }

  /** Trimming a full window and one token more leaves the newer eight. */
  lemma TrimWindow(w: seq<Issued>)
    requires Increasing(w) && Distinct(w) && |w| <= MAX_TOKENS + 1
    ensures var kept := if |w| <= MAX_TOKENS then w else w[1..];
            Trim(MapOf(w)) == MapOf(kept) && Distinct(kept)
  {
    if |w| <= MAX_TOKENS {
      MapOfSize(w);
      TrimKeepsSmall(MapOf(w));
    } else {
      OldestGoes(w);
    }
  }

  lemma WindowIncreases(history: seq<Issued>, x: Issued)
    requires Increasing(history) && (history != [] ==> history[|history| - 1].at < x.at)
    ensures Increasing(history + [x]) && Increasing(Recent(history) + [x])
  {
    hide Increasing;
    if history != [] {
      IncreasingLast(history);
    }
    IncreasingAppend(history, x);
    if |history| > MAX_TOKENS {
      IncreasingSuffix(history + [x], |history| - MAX_TOKENS);
      RecentThenNext(history, x);
    }
  }

  lemma RecentThenNext(history: seq<Issued>, x: Issued)
    requires |history| > MAX_TOKENS
    ensures (history + [x])[|history| - MAX_TOKENS..] == Recent(history) + [x]
  {
    var from := |history| - MAX_TOKENS;
    var w, v := (history + [x])[from..], history[from..] + [x];
    assert |w| == |v|;
    forall i | 0 <= i < |v| ensures w[i] == v[i] {
      assert w[i] == (history + [x])[from + i];
    }
    assert w == v;
  }

  /** With increasing issue times, issuing and trimming moves the window on by one: what is
      stored is always exactly the last eight tokens issued. */
  lemma IssueMovesTheWindow(m: Tokens, history: seq<Issued>, token: Digest, at: int)
    requires Holds(m, history) && token !in m
    requires history != [] ==> history[|history| - 1].at < at
    ensures Holds(Trim(m[token := at]), history + [Issued(token, at)])
  {
    var x := Issued(token, at);
    WindowIncreases(history, x);
    RecentStep(history, x);
    hide Increasing, Distinct, MapOf, Trim, Recent;
    MapOfAppend(Recent(history), x);
    assert |Recent(history)| <= MAX_TOKENS by { RecentSize(history); }
    TrimWindow(Recent(history) + [x]);
    RecentSize(history);
  }

  lemma RecentSize(history: seq<Issued>)
    ensures |Recent(history)| == if |history| <= MAX_TOKENS then |history| else MAX_TOKENS
  {
  }
}
