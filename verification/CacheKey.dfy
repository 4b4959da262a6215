/** The key under which a response is cached, and when two questions share one. */
module CacheKey {
  import opened Sets
  import opened Text
  import opened Sorting
  import opened Labels

  const TYPE_A: nat := 1
  const TYPE_CNAME: nat := 5
  const TYPE_AAAA: nat := 28

  datatype Question = Question(name: string, qtype: nat, qclass: nat)

  predicate CacheableType(t: nat) {
    t == TYPE_A || t == TYPE_CNAME || t == TYPE_AAAA
  }

  // ---- decimal numbers --------------------------------------------------------------------

  function Digit(d: nat): char
    requires d < 10
  {
    '0' + (d as char)
  }

  function Decimal(n: nat): string {
    if n < 10 then [Digit(n)] else Decimal(n / 10) + [Digit(n % 10)]
  }

  function Value(s: string): nat {
    if s == [] then 0 else 10 * Value(s[..|s| - 1]) + (if '0' <= s[|s| - 1] <= '9' then (s[|s| - 1] - '0') as nat else 0)
  }

  lemma {:induction false} DecimalReads(n: nat)
    ensures Value(Decimal(n)) == n
    ensures '-' !in Decimal(n)
  {
    if n >= 10 {
      DecimalReads(n / 10);
      var s := Decimal(n);
      assert s[..|s| - 1] == Decimal(n / 10);
    } else {
      assert Decimal(n)[..0] == [];
    }
  }

  // ---- taking strings apart ---------------------------------------------------------------

  /** The text before the first separator is determined by the whole. */
  lemma {:induction false} FirstPart(c: char, x: string, r: string, y: string, q: string)
    requires c !in x && c !in y && x + [c] + r == y + [c] + q
    ensures x == y && r == q
  {
    var s := x + [c] + r;
    assert s == y + [c] + q && s[|x|] == c && s[|y|] == c;
    assert forall i :: 0 <= i < |x| ==> s[i] == x[i];
    assert forall i :: 0 <= i < |y| ==> s[i] == y[i];
    assert |x| == |y|;
    assert x == s[..|x|] == y;
    assert r == s[|x| + 1..] == q;
  }

  ghost predicate FullyQualified(name: string) {
    name != [] && name[|name| - 1] == '.'
  }

  /** `n` and `f` on one side, `n'` and `f'` on the other: the longer name continues into the
      other's labels. */
  ghost predicate Shifted(n: string, f: string, n': string, f': string) {
    exists x :: FullyQualified(x) && n' == n + "-" + x && f == x + "-" + f'
  }

  lemma LongerName(n: string, f: string, n': string, f': string)
    requires FullyQualified(n) && FullyQualified(n') && |n| < |n'|
    requires n + ("-" + f) == n' + ("-" + f')
    ensures Shifted(n, f, n', f')
  {
    var s := n + ("-" + f);
    assert s == n' + ("-" + f') && s[|n|] == '-' && n' == s[..|n'|] && n == s[..|n|];
    assert n'[|n|] == '-';
    var x := n'[|n| + 1..];
    assert n' == n + "-" + x;
    assert f == s[|n| + 1..] == x + ("-" + f') == x + "-" + f';
    assert FullyQualified(x);
  }

  lemma ShiftedIsEqual(n: string, f: string, n': string, f': string)
    requires Shifted(n, f, n', f')
    ensures n + ("-" + f) == n' + ("-" + f')
  {
    var x :| FullyQualified(x) && n' == n + "-" + x && f == x + "-" + f';
    assert n + ("-" + (x + "-" + f')) == (n + "-" + x) + ("-" + f');
  }

  /** Where a name ends that is followed by labels. */
  lemma NameAndLabels(n: string, f: string, n': string, f': string)
    requires FullyQualified(n) && FullyQualified(n')
    ensures n + ("-" + f) == n' + ("-" + f')
       <==> (n == n' && f == f') || Shifted(n, f, n', f') || Shifted(n', f', n, f)
  {
    if n + ("-" + f) == n' + ("-" + f') {
      if |n| < |n'| {
        LongerName(n, f, n', f');
      } else if |n'| < |n| {
        LongerName(n', f', n, f);
      } else {
        assert n == (n + ("-" + f))[..|n|] == n';
        assert f == (n + ("-" + f))[|n| + 1..] == f';
      }
    }
    if Shifted(n, f, n', f') {
      ShiftedIsEqual(n, f, n', f');
    }
    if Shifted(n', f', n, f) {
      ShiftedIsEqual(n', f', n, f);
    }
  }

  /** A dot followed by a hyphen, which is how a name ends in a key. */
  ghost predicate DotHyphenAt(s: string, i: int) {
    0 <= i < |s| - 1 && s[i] == '.' && s[i + 1] == '-'
  }

  ghost predicate DotHyphen(s: string) {
    exists i :: DotHyphenAt(s, i)
  }

  lemma ShiftNeedsDotHyphen(n: string, f: string, n': string, f': string)
    requires Shifted(n, f, n', f')
    ensures DotHyphen(f)
  {
    var x :| FullyQualified(x) && n' == n + "-" + x && f == x + "-" + f';
    assert DotHyphenAt(f, |x| - 1);
  }

  function Join(xs: seq<string>): string {
    if xs == [] then "" else if |xs| == 1 then xs[0] else xs[0] + "," + Join(xs[1..])
  }

  ghost predicate Joinable(xs: seq<string>) {
    forall x :: x in xs ==> x != [] && ',' !in x
  }

  lemma JoinableTail(xs: seq<string>)
    requires Joinable(xs) && xs != []
    ensures Joinable(xs[1..])
  {
    forall x | x in xs[1..] ensures x != [] && ',' !in x {
      assert x in xs;
    }
  }

  lemma CommaIffSeveral(a: seq<string>)
    requires Joinable(a)
    ensures ',' in Join(a) <==> |a| > 1
    ensures Join(a) == "" <==> a == []
  {
    if a != [] {
      assert a[0] in a;
    }
  }

  lemma {:induction false} JoinInjective(a: seq<string>, b: seq<string>)
    requires Joinable(a) && Joinable(b) && Join(a) == Join(b)
    ensures a == b
  {
    CommaIffSeveral(a);
    CommaIffSeveral(b);
    if |a| == 1 {
      assert a == [a[0]] && b == [b[0]];
    } else if |a| > 1 {
      assert a == [a[0]] + a[1..] && b == [b[0]] + b[1..];
      assert a[0] in a && b[0] in b;
      JoinableTail(a);
      JoinableTail(b);
      FirstPart(',', a[0], Join(a[1..]), b[0], Join(b[1..]));
      JoinInjective(a[1..], b[1..]);
    }
  }

  lemma {:induction false} JoinLacksDotHyphen(xs: seq<string>)
    requires forall x :: x in xs ==> !DotHyphen(x)
    ensures !DotHyphen(Join(xs))
  {
    if |xs| > 1 {
      JoinLacksDotHyphen(xs[1..]);
      CommaSeparates(xs[0], Join(xs[1..]));
    }
  }

  lemma CommaSeparates(x: string, y: string)
    requires !DotHyphen(x) && !DotHyphen(y)
    ensures !DotHyphen(x + "," + y)
  {
    var s := x + "," + y;
    forall i ensures !DotHyphenAt(s, i) {
      if 0 <= i < |x| - 1 {
        assert !DotHyphenAt(x, i);
        assert s[i] == x[i] && s[i + 1] == x[i + 1];
      } else if |x| < i < |s| - 1 {
        var j := i - |x| - 1;
        assert !DotHyphenAt(y, j);
        assert s[i] == y[j] && s[i + 1] == y[j + 1];
      }
    }
  }

  // ---- the key ----------------------------------------------------------------------------

  function Fingerprint(labels: seq<string>): string {
    if labels == [] then "" else Join(NormalizeLabels(labels))
  }

  function Key(q: Question, labels: seq<string>): string {
    if CacheableType(q.qtype)
    then Assemble(Decimal(q.qtype), Decimal(q.qclass), q.name, Fingerprint(labels))
    else ""
  }

  /** No comma in any label. */
  ghost predicate Unsplit(labels: seq<string>) {
    forall l :: l in LabelSet(labels) ==> ',' !in l
  }

  /** ... and no dot followed by a hyphen. */
  ghost predicate PlainLabels(labels: seq<string>) {
    Unsplit(labels) && forall l :: l in LabelSet(labels) ==> !DotHyphen(l)
  }

  lemma NormalizedJoinable(labels: seq<string>)
    requires Unsplit(labels)
    ensures Joinable(NormalizeLabels(labels)) && Fingerprint(labels) == Join(NormalizeLabels(labels))
  {
    NormalizeLabelsIsTheSet(labels);
  }

  lemma PlainFingerprint(labels: seq<string>)
    requires PlainLabels(labels)
    ensures !DotHyphen(Fingerprint(labels))
  {
    NormalizeLabelsIsTheSet(labels);
    JoinLacksDotHyphen(NormalizeLabels(labels));
  }

  lemma FingerprintIffSameLabels(a: seq<string>, b: seq<string>)
    requires Unsplit(a) && Unsplit(b)
    ensures Fingerprint(a) == Fingerprint(b) <==> LabelSet(a) == LabelSet(b)
  {
    NormalizedJoinable(a);
    NormalizedJoinable(b);
    NormalizedEqualIffSameSet(a, b);
    if Fingerprint(a) == Fingerprint(b) {
      JoinInjective(NormalizeLabels(a), NormalizeLabels(b));
    }
  }

  function Assemble(t: string, c: string, name: string, labels: string): string {
    t + "-" + c + "-" + name + "-" + labels
  }

  lemma PartsOfTheKey(t: string, c: string, n: string, f: string, t': string, c': string, n': string, f': string)
    requires '-' !in t && '-' !in c && '-' !in t' && '-' !in c'
    ensures Assemble(t, c, n, f) == Assemble(t', c', n', f')
       <==> t == t' && c == c' && n + ("-" + f) == n' + ("-" + f')
  {
    var x, x' := n + ("-" + f), n' + ("-" + f');
    assert Assemble(t, c, n, f) == t + "-" + (c + "-" + x) && Assemble(t', c', n', f') == t' + "-" + (c' + "-" + x');
    if Assemble(t, c, n, f) == Assemble(t', c', n', f') {
      FirstPart('-', t, c + "-" + x, t', c' + "-" + x');
      FirstPart('-', c, x, c', x');
    }
  }

  /** When two cacheable questions share a key, whatever the labels: type and class agree, and
      either name and fingerprint do too, or one name continues into the other's labels. */
  lemma SameKeyIff(q: Question, a: seq<string>, r: Question, b: seq<string>)
    requires CacheableType(q.qtype) && CacheableType(r.qtype) && FullyQualified(q.name) && FullyQualified(r.name)
    ensures Key(q, a) == Key(r, b) <==>
              && q.qtype == r.qtype && q.qclass == r.qclass
              && (|| (q.name == r.name && Fingerprint(a) == Fingerprint(b))
                  || Shifted(q.name, Fingerprint(a), r.name, Fingerprint(b))
                  || Shifted(r.name, Fingerprint(b), q.name, Fingerprint(a)))
  {
    DecimalReads(q.qtype);
    DecimalReads(r.qtype);
    DecimalReads(q.qclass);
    DecimalReads(r.qclass);
    hide Decimal, Value, Fingerprint, FullyQualified, Shifted, Assemble;
    NameAndLabels(q.name, Fingerprint(a), r.name, Fingerprint(b));
    PartsOfTheKey(Decimal(q.qtype), Decimal(q.qclass), q.name, Fingerprint(a),
                  Decimal(r.qtype), Decimal(r.qclass), r.name, Fingerprint(b));
  }

  /** With labels that hold no comma and no dot followed by a hyphen: exactly when type, class,
      name and set of labels agree. */
  lemma SameKeyIffSameQuestion(q: Question, a: seq<string>, r: Question, b: seq<string>)
    requires CacheableType(q.qtype) && CacheableType(r.qtype)
    requires FullyQualified(q.name) && FullyQualified(r.name) && PlainLabels(a) && PlainLabels(b)
    ensures Key(q, a) == Key(r, b) <==> q == r && LabelSet(a) == LabelSet(b)
  {
    SameKeyIff(q, a, r, b);
    FingerprintIffSameLabels(a, b);
    PlainFingerprint(a);
    PlainFingerprint(b);
    hide Key, Fingerprint, LabelSet, Shifted, DotHyphen, FullyQualified;
    if Shifted(q.name, Fingerprint(a), r.name, Fingerprint(b)) {
      ShiftNeedsDotHyphen(q.name, Fingerprint(a), r.name, Fingerprint(b));
    }
    if Shifted(r.name, Fingerprint(b), q.name, Fingerprint(a)) {
      ShiftNeedsDotHyphen(r.name, Fingerprint(b), q.name, Fingerprint(a));
    }
  }

  // ---- which text is a fingerprint ----------------------------------------------------------

  lemma SingleLabel(l: string)
    requires l != [] && Trimmed(l)
    ensures Fingerprint([l]) == l && LabelSet([l]) == {l}
  {
    TrimSpaceTrims(l);
    assert [l][..0] == [];
    assert Clean([]) == [] && Clean([l]) == [l];
    assert [l][1..] == [] && Sort([], StringOrder()) == [];
    assert Sort([l], StringOrder()) == [l];
  }

  lemma TwoLabels(x: string, y: string)
    requires x != [] && y != [] && Trimmed(x) && Trimmed(y) && x != y && Leq(x, y)
    ensures Fingerprint([x, y]) == x + "," + y && LabelSet([x, y]) == {x, y}
  {
    TrimSpaceTrims(x);
    TrimSpaceTrims(y);
    var xy := [x, y];
    assert [x][..0] == [] && xy[..1] == [x];
    assert Clean([]) == [] && Clean([x]) == [x] && Clean(xy) == [x] + [y] == [x, y];
    assert [y][1..] == [] && xy[1..] == [y];
    assert Sort([], StringOrder()) == [] && Sort([y], StringOrder()) == [y];
    assert Sort(xy, StringOrder()) == [x] + [y] == xy;
    assert Join([y]) == y && Join(xy) == x + "," + y;
    assert LabelSet(xy) == {x, y};
  }

  /** Normalised labels: each trimmed and not empty. */
  ghost predicate AllProper(xs: seq<string>) {
    forall x :: x in xs ==> x != [] && Trimmed(x)
  }

  lemma NormalizedProper(labels: seq<string>)
    ensures AllProper(NormalizeLabels(labels))
  {
    NormalizeLabelsIsTheSet(labels);
    forall x | x in NormalizeLabels(labels) ensures x != [] && Trimmed(x) {
      var l :| l in labels && TrimSpace(l) != [] && x == TrimSpace(l);
      TrimSpaceTrims(l);
    }
  }

  lemma {:induction false} JoinTrimmed(xs: seq<string>)
    requires AllProper(xs)
    ensures Trimmed(Join(xs)) && (Join(xs) == "" <==> xs == [])
  {
    if xs != [] {
      assert xs[0] in xs;
      if |xs| > 1 {
        assert AllProper(xs[1..]);
        JoinTrimmed(xs[1..]);
        var rest := Join(xs[1..]);
        assert Join(xs)[|Join(xs)| - 1] == rest[|rest| - 1];
        assert Join(xs)[0] == xs[0][0];
      }
    }
  }

  lemma FingerprintIsJoin(labels: seq<string>)
    ensures Fingerprint(labels) == Join(NormalizeLabels(labels))
    ensures Trimmed(Fingerprint(labels)) && (Fingerprint(labels) == "" <==> NormalizeLabels(labels) == [])
  {
    NormalizedProper(labels);
    JoinTrimmed(NormalizeLabels(labels));
  }

  ghost predicate IsFingerprint(s: string) {
    exists labels :: Fingerprint(labels) == s
  }

  /** Text is the fingerprint of some label list exactly if it is trimmed. */
  lemma FingerprintIffTrimmed(s: string)
    ensures IsFingerprint(s) <==> Trimmed(s)
  {
    if IsFingerprint(s) {
      var labels :| Fingerprint(labels) == s;
      FingerprintIsJoin(labels);
    }
    if s == [] {
      assert Fingerprint([]) == s;
    } else if Trimmed(s) {
      SingleLabel(s);
    }
  }

  // ---- which label lists share a fingerprint ------------------------------------------------

  /** Another set of labels has the same fingerprint. */
  ghost predicate HasLabelTwin(a: seq<string>) {
    exists b :: Fingerprint(b) == Fingerprint(a) && LabelSet(b) != LabelSet(a)
  }

  /** The two labels a comma separates are in order. */
  ghost predicate CommaSplits(l: string, x: string, y: string) {
    l == x + "," + y && x != [] && y != [] && Trimmed(x) && Trimmed(y) && x != y && Leq(x, y)
  }

  /** Two labels or more, or one that reads as two. */
  ghost predicate Ambiguous(a: seq<string>) {
    |LabelSet(a)| >= 2 || exists l, x, y :: LabelSet(a) == {l} && CommaSplits(l, x, y)
  }

  lemma SetSizes(a: seq<string>)
    ensures |LabelSet(a)| >= 2 <==> |NormalizeLabels(a)| >= 2
    ensures LabelSet(a) == {} <==> NormalizeLabels(a) == []
    ensures forall l :: LabelSet(a) == {l} <==> NormalizeLabels(a) == [l]
  {
    NormalizeLabelsIsTheSet(a);
    hide LabelSet, NormalizeLabels, Ascending;
    var n, labels := NormalizeLabels(a), LabelSet(a);
    if |n| >= 2 {
      assert n[1] in n[1..] && n[0] in n && n[1] in n;
      assert {n[0], n[1]} <= labels;
      SubsetSize({n[0], n[1]}, labels);
    } else if |n| == 1 {
      assert n == [n[0]];
      assert labels == {n[0]};
    } else {
      assert labels == {};
    }
  }

  lemma {:induction false} LeqExtends(x: string, z: string)
    ensures Leq(x, x + z)
  {
    if x != [] {
      assert (x + z)[1..] == x[1..] + z;
      LeqExtends(x[1..], z);
    }
  }

  /** Normalised labels, two or more: the first, and the rest joined, split their join in order. */
  lemma JoinSplits(n: seq<string>)
    requires |n| >= 2 && AllProper(n) && Ascending(n, StringOrder()) && NoDuplicates(n)
    ensures CommaSplits(Join(n), n[0], Join(n[1..]))
  {
    var x, second, y := n[0], n[1], Join(n[1..]);
    assert x in n && second in n[1..];
    assert AllProper(n[1..]);
    JoinTrimmed(n[1..]);
    var z := y[|second|..];
    assert y == second + z;
    LeqExtends(second, z);
    LeqTransitive(x, second, y);
    if x == y {
      LeqTotal(x, second);
    }
  }

  lemma JoinOne(xs: seq<string>)
    ensures |xs| == 1 ==> xs == [xs[0]] && Join(xs) == xs[0]
  {
  }

  lemma TwinsDiffer(a: seq<string>, b: seq<string>)
    requires Fingerprint(b) == Fingerprint(a) && LabelSet(b) != LabelSet(a)
    ensures Ambiguous(a)
  {
    SetSizes(a);
    SetSizes(b);
    FingerprintIsJoin(a);
    FingerprintIsJoin(b);
    NormalizedProper(b);
    NormalizeLabelsIsTheSet(b);
    NormalizedEqualIffSameSet(a, b);
    hide NormalizeLabels, LabelSet, Fingerprint, AllProper, Ascending, NoDuplicates, CommaSplits;
    var n, m := NormalizeLabels(a), NormalizeLabels(b);
    JoinOne(n);
    JoinOne(m);
    if |n| == 1 && |m| >= 2 {
      JoinSplits(m);
      assert LabelSet(a) == {n[0]} && CommaSplits(n[0], m[0], Join(m[1..]));
    }
  }

  /** A label list shares its fingerprint with another set of labels exactly if it holds two labels
      or more, or a single one with a comma between two labels in order. */
  lemma LabelTwinIff(a: seq<string>)
    ensures HasLabelTwin(a) <==> Ambiguous(a)
  {
    SetSizes(a);
    FingerprintIsJoin(a);
    hide NormalizeLabels, Fingerprint;
    if HasLabelTwin(a) {
      var b :| Fingerprint(b) == Fingerprint(a) && LabelSet(b) != LabelSet(a);
      TwinsDiffer(a, b);
    }
    if |LabelSet(a)| >= 2 {
      var f := Fingerprint(a);
      SingleLabel(f);
      assert LabelSet([f]) != LabelSet(a);
    } else if Ambiguous(a) {
      var l, x, y :| LabelSet(a) == {l} && CommaSplits(l, x, y);
      assert Fingerprint(a) == Join([l]) == l;
      TwoLabels(x, y);
      assert x in LabelSet([x, y]) && |x| < |l|;
    }
  }

  // ---- which questions share an entry -------------------------------------------------------

  /** Some other question, or the same one for another set of labels, is answered from the same
      entry. */
  ghost predicate HasTwin(q: Question, a: seq<string>) {
    exists r: Question, b ::
      CacheableType(r.qtype) && FullyQualified(r.name) && Key(r, b) == Key(q, a) && (r != q || LabelSet(b) != LabelSet(a))
  }

  /** The labels start with what reads as the rest of a longer name, and go on as labels. */
  ghost predicate LabelsContinue(f: string) {
    exists i :: DotHyphenAt(f, i) && Trimmed(f[i + 2..])
  }

  /** The name reads as a shorter name followed by the start of the labels. */
  ghost predicate NameSplits(name: string, f: string) {
    exists i :: DotHyphenAt(name, i) && Trimmed(name[i + 2..] + "-" + f)
  }

  lemma ShiftedSplits(n: string, f: string, n': string, f': string)
    requires Shifted(n, f, n', f') && FullyQualified(n)
    ensures Trimmed(f') ==> LabelsContinue(f)
    ensures Trimmed(f) ==> NameSplits(n', f')
  {
    var x :| FullyQualified(x) && n' == n + "-" + x && f == x + "-" + f';
    assert DotHyphenAt(f, |x| - 1) && f[|x| - 1 + 2..] == f';
    assert DotHyphenAt(n', |n| - 1) && n'[|n| - 1 + 2..] == x;
  }

  lemma LabelsShift(n: string, f: string, i: int)
    requires DotHyphenAt(f, i)
    ensures Shifted(n, f, n + "-" + f[..i + 1], f[i + 2..])
  {
    var x := f[..i + 1];
    assert FullyQualified(x) && f == x + "-" + f[i + 2..];
  }

  lemma NameShifts(name: string, f: string, i: int)
    requires DotHyphenAt(name, i) && FullyQualified(name)
    ensures FullyQualified(name[..i + 1]) && Shifted(name[..i + 1], name[i + 2..] + "-" + f, name, f)
  {
    var x := name[i + 2..];
    assert FullyQualified(x) && name == name[..i + 1] + "-" + x;
  }

  /** A question and its labels share their entry with others exactly if the labels are ambiguous,
      or name or labels can be split after a dot that a hyphen follows. */
  lemma TwinIff(q: Question, a: seq<string>)
    requires CacheableType(q.qtype) && FullyQualified(q.name)
    ensures HasTwin(q, a) <==> Ambiguous(a) || LabelsContinue(Fingerprint(a)) || NameSplits(q.name, Fingerprint(a))
  {
    hide Key, Fingerprint, LabelSet, Ambiguous, Trimmed, DotHyphenAt, FullyQualified, Shifted;
    if HasTwin(q, a) {
      var r: Question, b :| CacheableType(r.qtype) && FullyQualified(r.name) && Key(r, b) == Key(q, a)
                            && (r != q || LabelSet(b) != LabelSet(a));
      TwinSplits(q, a, r, b);
    }
    if Ambiguous(a) {
      LabelTwinIff(a);
      var b :| Fingerprint(b) == Fingerprint(a) && LabelSet(b) != LabelSet(a);
      SameKeyIff(q, a, q, b);
    }
    if LabelsContinue(Fingerprint(a)) {
      ContinuedTwin(q, a);
    }
    if NameSplits(q.name, Fingerprint(a)) {
      SplitTwin(q, a);
    }
  }

  lemma TwinSplits(q: Question, a: seq<string>, r: Question, b: seq<string>)
    requires CacheableType(q.qtype) && FullyQualified(q.name) && CacheableType(r.qtype) && FullyQualified(r.name)
    requires Key(r, b) == Key(q, a) && (r != q || LabelSet(b) != LabelSet(a))
    ensures Ambiguous(a) || LabelsContinue(Fingerprint(a)) || NameSplits(q.name, Fingerprint(a))
  {
    var f, g := Fingerprint(a), Fingerprint(b);
    SameKeyIff(q, a, r, b);
    FingerprintIsJoin(a);
    FingerprintIsJoin(b);
    hide Key, Fingerprint, LabelSet, Ambiguous, Trimmed, LabelsContinue, NameSplits, FullyQualified, Shifted;
    if Shifted(q.name, f, r.name, g) {
      ShiftedSplits(q.name, f, r.name, g);
    } else if Shifted(r.name, g, q.name, f) {
      ShiftedSplits(r.name, g, q.name, f);
    } else {
      LabelTwinIff(a);
    }
  }

  lemma ContinuedTwin(q: Question, a: seq<string>)
    requires CacheableType(q.qtype) && FullyQualified(q.name) && LabelsContinue(Fingerprint(a))
    ensures HasTwin(q, a)
  {
    var f := Fingerprint(a);
    hide Key, Fingerprint, LabelSet, Trimmed;
    var i :| DotHyphenAt(f, i) && Trimmed(f[i + 2..]);
    FingerprintIffTrimmed(f[i + 2..]);
    var b :| Fingerprint(b) == f[i + 2..];
    var r := q.(name := q.name + "-" + f[..i + 1]);
    LabelsShift(q.name, f, i);
    SameKeyIff(q, a, r, b);
    assert r.name != q.name;
  }

  lemma SplitTwin(q: Question, a: seq<string>)
    requires CacheableType(q.qtype) && FullyQualified(q.name) && NameSplits(q.name, Fingerprint(a))
    ensures HasTwin(q, a)
  {
    var f := Fingerprint(a);
    hide Key, Fingerprint, LabelSet, Trimmed;
    var i :| DotHyphenAt(q.name, i) && Trimmed(q.name[i + 2..] + "-" + f);
    FingerprintIffTrimmed(q.name[i + 2..] + "-" + f);
    var b :| Fingerprint(b) == q.name[i + 2..] + "-" + f;
    var r := q.(name := q.name[..i + 1]);
    NameShifts(q.name, f, i);
    SameKeyIff(q, a, r, b);
    assert |r.name| < |q.name|;
  }

  // ---- the conditions on labels matter ----------------------------------------------------

  /** A comma in a label collides with the two labels it separates. */
  lemma CommaCollides(q: Question, x: string, y: string)
    requires x != [] && y != [] && Trimmed(x) && Trimmed(y) && x != y && Leq(x, y)
    ensures Key(q, [x + "," + y]) == Key(q, [x, y]) && LabelSet([x + "," + y]) != LabelSet([x, y])
  {
    SingleLabel(x + "," + y);
    TwoLabels(x, y);
    assert |x| < |x + "," + y|;
    assert x in LabelSet([x, y]);
  }

  /** A dot in a label can pass for the end of the name. */
  lemma DotCollides(q: Question, x: string, y: string)
    requires CacheableType(q.qtype) && FullyQualified(q.name)
    requires x != [] && y != [] && Trimmed(x) && Trimmed(y) && FullyQualified(x)
    ensures Key(q, [x + "-" + y]) == Key(q.(name := q.name + "-" + x), [y])
  {
    SingleLabel(x + "-" + y);
    SingleLabel(y);
    hide Decimal, Fingerprint, Clean, NormalizeLabels, LabelSet;
    Reassociate(Decimal(q.qtype), Decimal(q.qclass), q.name, x, y);
  }

  lemma Reassociate(t: string, c: string, n: string, x: string, y: string)
    ensures Assemble(t, c, n, x + "-" + y) == Assemble(t, c, n + "-" + x, y)
  {
    var head := t + "-" + c + "-";
    assert head + n + "-" + (x + "-" + y) == head + (n + "-" + x) + "-" + y;
  }
}
