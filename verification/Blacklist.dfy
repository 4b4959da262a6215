/**
 The blocklist. A hosts file and a list of extra hosts are compiled, minus everything the
 configured exceptions cover, into a tree; a query is blocked when its name is in the tree and
 no exception applies to the name or to the client.
 */
module Selectors {
  import opened Text
  import opened Sorting

  function NormalizeDomain(value: string): string {
    TrimSuffix(TrimSpace(ToLower(value)), ".")
  }

  /** `value` is some spelling of the name `d`: any case, white space around it, and the dot that
      ends a name written out or not. */
  ghost predicate NameOf(value: string, d: string) {
    Writes(value, d + ".") || (Writes(value, d) && (d == [] || d[|d| - 1] != '.'))
  }

  /** Two values are the same name exactly if they spell one, in that sense. */
  lemma NormalizeDomainIff(value: string, d: string)
    ensures NormalizeDomain(value) == d <==> NameOf(value, d)
  {
    WritesIff(value, d);
    WritesIff(value, d + ".");
    TrimSuffixIff(TrimSpace(ToLower(value)), ".", d);
  }

  const LABEL_PREFIX: string := "label:"

  predicate IsLabel(value: string) {
    HasPrefix(TrimSpace(value), LABEL_PREFIX)
  }

  /** The label or the domain a selector value stands for; empty if none. */
  function LabelOf(value: string): string
    requires IsLabel(value)
  {
    TrimSpace(TrimSpace(value)[|LABEL_PREFIX|..])
  }

  datatype Rules = Rules(domains: seq<string>, labels: seq<string>)

  /** The loop of parseSelectors, before sorting. */
  function Collect(values: seq<string>): Rules {
    if values == [] then Rules([], [])
    else
      var r := Collect(values[..|values| - 1]);
      var v := values[|values| - 1];
      if TrimSpace(v) == [] then r
      else if IsLabel(v) then
        if LabelOf(v) == [] || LabelOf(v) in r.labels then r else r.(labels := r.labels + [LabelOf(v)])
      else
        var d := NormalizeDomain(TrimSpace(v));
        if d == [] || d in r.domains then r else r.(domains := r.domains + [d])
  }

  function Parse(values: seq<string>): Rules {
    var r := Collect(values);
    Rules(Sort(r.domains, StringOrder()), Sort(r.labels, StringOrder()))
  }

  /** What a list of selectors means. */
  ghost predicate NamesDomain(values: seq<string>, d: string) {
    exists v :: v in values && TrimSpace(v) != [] && !IsLabel(v) && d == NormalizeDomain(TrimSpace(v)) && d != []
  }

  ghost predicate NamesLabel(values: seq<string>, l: string) {
    exists v :: v in values && TrimSpace(v) != [] && IsLabel(v) && l == LabelOf(v) && l != []
  }

  lemma {:induction false} CollectMeans(values: seq<string>)
    ensures forall d :: d in Collect(values).domains <==> NamesDomain(values, d)
    ensures forall l :: l in Collect(values).labels <==> NamesLabel(values, l)
  {
    if values != [] {
      var init, v := values[..|values| - 1], values[|values| - 1];
      CollectMeans(init);
      hide TrimSpace, NormalizeDomain, IsLabel, LabelOf;
      assert values == init + [v];
      forall d ensures NamesDomain(values, d) <==>
                NamesDomain(init, d) || (TrimSpace(v) != [] && !IsLabel(v) && d == NormalizeDomain(TrimSpace(v)) && d != []) {
        assert v in values;
      }
      forall l ensures NamesLabel(values, l) <==>
                NamesLabel(init, l) || (TrimSpace(v) != [] && IsLabel(v) && l == LabelOf(v) && l != []) {
        assert v in values;
      }
      hide NamesDomain, NamesLabel;
    }
  }

  lemma SortMembers(s: seq<string>)
    ensures forall x :: x in Sort(s, StringOrder()) <==> x in s
  {
    StringOrderIsTotal();
    SortSorts(s, StringOrder());
    forall x ensures x in Sort(s, StringOrder()) <==> x in s {
      assert x in multiset(Sort(s, StringOrder())) <==> x in multiset(s);
    }
  }

  /** Parsing keeps exactly the domains and labels the values name. */
  lemma ParseMeans(values: seq<string>)
    ensures forall d :: d in Parse(values).domains <==> NamesDomain(values, d)
    ensures forall l :: l in Parse(values).labels <==> NamesLabel(values, l)
  {
    CollectMeans(values);
    SortMembers(Collect(values).domains);
    SortMembers(Collect(values).labels);
    hide Sort, Collect, NamesDomain, NamesLabel;
  }

  /** `v` is `label:` and the name `l`, with white space anywhere around. */
  ghost predicate WritesLabel(v: string, l: string) {
    l != [] && Trimmed(l) && exists rest :: Trimmed("label:" + rest) && Padded(v, "label:" + rest) && Padded(rest, l)
  }

  ghost predicate StartsAsLabel(v: string) {
    exists rest :: Trimmed("label:" + rest) && Padded(v, "label:" + rest)
  }

  lemma IsLabelIff(v: string)
    ensures IsLabel(v) <==> StartsAsLabel(v)
  {
    var t := TrimSpace(v);
    TrimSpaceIff(v, t);
    if IsLabel(v) {
      assert t == "label:" + t[6..];
    }
    if StartsAsLabel(v) {
      var rest :| Trimmed("label:" + rest) && Padded(v, "label:" + rest);
      TrimSpaceIff(v, "label:" + rest);
    }
  }

  lemma LabelOfIff(v: string, l: string)
    ensures IsLabel(v) && l == LabelOf(v) && l != [] <==> WritesLabel(v, l)
  {
    var t := TrimSpace(v);
    TrimSpaceIff(v, t);
    if IsLabel(v) {
      assert t == "label:" + t[6..];
      TrimSpaceIff(t[6..], l);
    }
    if WritesLabel(v, l) {
      var rest :| Trimmed("label:" + rest) && Padded(v, "label:" + rest) && Padded(rest, l);
      TrimSpaceIff(v, "label:" + rest);
      TrimSpaceIff(rest, l);
      assert t[6..] == rest;
    }
  }

  /** Some value names a domain that ends `d`. */
  ghost predicate Covered(values: seq<string>, d: string) {
    exists v, p, before :: v in values && !StartsAsLabel(v) && NameOf(v, p) && p != [] && d == before + p
  }

  ghost predicate ExemptsLabel(values: seq<string>, labels: seq<string>) {
    exists v, l :: v in values && WritesLabel(v, l) && l in labels
  }

  lemma NameIsNotBlank(v: string, p: string)
    requires NameOf(v, p) && p != []
    ensures TrimSpace(v) != [] && NormalizeDomain(TrimSpace(v)) == p
  {
    NormalizeDomainIff(v, p);
    LowerThenTrim(v);
    LowerThenTrim(TrimSpace(v));
    TrimSpaceTrims(v);
  }

  lemma NamesDomainIff(values: seq<string>, p: string)
    ensures NamesDomain(values, p) <==> exists v :: v in values && !StartsAsLabel(v) && NameOf(v, p) && p != []
  {
    hide NormalizeDomain, TrimSpace, IsLabel, StartsAsLabel, NameOf;
    if NamesDomain(values, p) {
      var v :| v in values && TrimSpace(v) != [] && !IsLabel(v) && p == NormalizeDomain(TrimSpace(v)) && p != [];
      IsLabelIff(v);
      TrimmedNames(v);
      NormalizeDomainIff(v, p);
    }
    if v :| v in values && !StartsAsLabel(v) && NameOf(v, p) && p != [] {
      IsLabelIff(v);
      NameIsNotBlank(v, p);
    }
  }

  lemma TrimmedNames(v: string)
    ensures NormalizeDomain(TrimSpace(v)) == NormalizeDomain(v)
  {
    LowerThenTrim(v);
    LowerThenTrim(TrimSpace(v));
    TrimSpaceTrims(v);
  }

  /** The parsed domains exempt exactly the names some value covers. */
  lemma ExemptIff(values: seq<string>, d: string)
    ensures Exempt(d, Parse(values).domains) <==> Covered(values, d)
  {
    ParseMeans(values);
    hide Parse, NamesDomain, StartsAsLabel, NameOf;
    if p :| p in Parse(values).domains && HasSuffix(d, p) {
      NamesDomainIff(values, p);
      assert d == d[..|d| - |p|] + p;
    }
    if v, p, before :| v in values && !StartsAsLabel(v) && NameOf(v, p) && p != [] && d == before + p {
      NamesDomainIff(values, p);
      assert d[|d| - |p|..] == p;
    }
  }

  lemma LabelBlankIff(v: string, l: string)
    requires WritesLabel(v, l)
    ensures TrimSpace(v) != []
  {
    var rest :| Trimmed("label:" + rest) && Padded(v, "label:" + rest) && Padded(rest, l);
    TrimSpaceIff(v, "label:" + rest);
  }

  /** The parsed labels meet a client's exactly if some value writes one of them. */
  lemma SharedLabelIff(values: seq<string>, labels: seq<string>)
    ensures (exists l :: l in labels && l in Parse(values).labels) <==> ExemptsLabel(values, labels)
  {
    ParseMeans(values);
    hide Parse, WritesLabel, LabelOf, TrimSpace;
    if l :| l in labels && l in Parse(values).labels {
      var v :| v in values && TrimSpace(v) != [] && IsLabel(v) && l == LabelOf(v) && l != [];
      LabelOfIff(v, l);
    }
    if v, l :| v in values && WritesLabel(v, l) && l in labels {
      LabelOfIff(v, l);
      LabelBlankIff(v, l);
    }
  }

  method ParseSelectors(values: seq<string>) returns (r: Rules)
    ensures r == Parse(values)
  {
    var domains, labels: seq<string> := [], [];
    for i := 0 to |values|
      invariant Rules(domains, labels) == Collect(values[..i])
    {
      assert values[..i + 1][..i] == values[..i];
      var value := TrimSpace(values[i]);
      if value == [] {
        continue;
      }
      if HasPrefix(value, LABEL_PREFIX) {
        var name := TrimSpace(value[|LABEL_PREFIX|..]);
        if name == [] || name in labels {
          continue;
        }
        labels := labels + [name];
        continue;
      }
      var domain := NormalizeDomain(value);
      if domain == [] || domain in domains {
        continue;
      }
      domains := domains + [domain];
    }
    assert values[..|values|] == values;
    r := Rules(Sort(domains, StringOrder()), Sort(labels, StringOrder()));
  }

  function Prefixed(labels: seq<string>): seq<string> {
    seq(|labels|, i requires 0 <= i < |labels| => LABEL_PREFIX + labels[i])
  }

  function NormalizeValues(values: seq<string>): seq<string> {
    var r := Parse(values);
    r.domains + Prefixed(r.labels)
  }

  /** A normalised list holds exactly the domains its values spell and the labels they write. */
  lemma NormalizeValuesMeans(values: seq<string>, x: string)
    ensures x in NormalizeValues(values) <==>
              || (exists v :: v in values && !StartsAsLabel(v) && NameOf(v, x) && x != [])
              || (exists v, l :: v in values && WritesLabel(v, l) && x == "label:" + l)
  {
    ParseMeans(values);
    NamesDomainIff(values, x);
    hide Parse, StartsAsLabel, NameOf, NamesDomain, WritesLabel, LabelOf, TrimSpace;
    var r := Parse(values);
    assert x in Prefixed(r.labels) <==> exists l :: l in r.labels && x == "label:" + l by {
      if l :| l in r.labels && x == "label:" + l {
        var i :| 0 <= i < |r.labels| && r.labels[i] == l;
        assert Prefixed(r.labels)[i] == x;
      }
    }
    if l :| l in r.labels && x == "label:" + l {
      var v :| v in values && TrimSpace(v) != [] && IsLabel(v) && l == LabelOf(v) && l != [];
      LabelOfIff(v, l);
    }
    if v, l :| v in values && WritesLabel(v, l) && x == "label:" + l {
      LabelOfIff(v, l);
      LabelBlankIff(v, l);
    }
  }

  /** More selectors never name less. */
  lemma ParseGrows(a: seq<string>, b: seq<string>)
    ensures forall d :: d in Parse(a).domains ==> d in Parse(a + b).domains
    ensures forall l :: l in Parse(a).labels ==> l in Parse(a + b).labels
  {
    ParseMeans(a);
    ParseMeans(a + b);
    hide Parse, TrimSpace, NormalizeDomain, IsLabel, LabelOf;
    assert forall v :: v in a ==> v in a + b;
  }

  ghost predicate Exempt(domain: string, suffixes: seq<string>) {
    exists s :: s in suffixes && HasSuffix(domain, s)
  }

  method MatchesSuffix(domain: string, suffixes: seq<string>) returns (yes: bool)
    ensures yes <==> Exempt(domain, suffixes)
  {
    for i := 0 to |suffixes|
      invariant forall j :: 0 <= j < i ==> !HasSuffix(domain, suffixes[j])
    {
      if HasSuffix(domain, suffixes[i]) {
        return true;
      }
    }
    return false;
  }
}

module Blocklist {
  import opened Wrappers
  import opened Text
  import opened Selectors

  /** A line of a hosts file, split into its fields. */
  type Line = seq<string>

  /** Address and name syntax, and the entry limit of a downloaded list. */
  datatype Syntax = Syntax(isAddress: string -> bool, isDomainName: string -> bool, maxEntries: nat)

  predicate Comment(field: string) {
    HasPrefix(field, "#")
  }

  predicate Blank(line: Line) {
    line == [] || Comment(line[0])
  }

  /** The host fields of a line: everything after the address, up to a comment. */
  function HostFields(fields: seq<string>): seq<string> {
    if fields == [] || Comment(fields[0]) then [] else [fields[0]] + HostFields(fields[1..])
  }

  function Hosts(line: Line): seq<string> {
    if Blank(line) || |line| < 2 then [] else HostFields(line[1..])
  }

  /** The hosts of a line: nothing for a comment or an address alone, otherwise the fields after the
      address, up to one that starts a comment. */
  lemma {:induction false} HostsOfALine(address: string, hosts: seq<string>, rest: seq<string>)
    requires address == [] || address[0] != '#'
    requires forall h :: h in hosts ==> h == [] || h[0] != '#'
    requires rest == [] || (rest[0] != [] && rest[0][0] == '#')
    ensures Hosts([address] + (hosts + rest)) == hosts
  {
    HostFieldsOf(hosts, rest);
    assert ([address] + (hosts + rest))[1..] == hosts + rest;
  }

  lemma {:induction false} HostFieldsOf(hosts: seq<string>, rest: seq<string>)
    requires forall h :: h in hosts ==> h == [] || h[0] != '#'
    requires rest == [] || (rest[0] != [] && rest[0][0] == '#')
    ensures HostFields(hosts + rest) == hosts
  {
    if hosts == [] {
      assert hosts + rest == rest;
    } else {
      assert hosts[0] in hosts && (hosts + rest)[0] == hosts[0] && (hosts + rest)[1..] == hosts[1..] + rest;
      HostFieldsOf(hosts[1..], rest);
    }
  }

  lemma CommentsNameNothing(line: Line)
    requires line == [] || (line[0] != [] && line[0][0] == '#') || |line| == 1
    ensures Hosts(line) == []
  {
  }

  /** Some line has an address that starts no comment, and then the name. */
  ghost predicate FileNames(file: seq<Line>, d: string) {
    exists i :: 0 <= i < |file| && |file[i]| >= 2 && !StartsComment(file[i][0]) && !StartsComment(file[i][1])
                && NameOf(file[i][1], d) && d != []
  }

  ghost predicate StartsComment(field: string) {
    field != [] && field[0] == '#'
  }

  lemma NamedFirstIff(file: seq<Line>, d: string)
    ensures NamedFirst(file, d) <==> FileNames(file, d)
  {
    hide NameOf, NormalizeDomain;
    forall i | 0 <= i < |file|
      ensures Hosts(file[i]) != [] <==> |file[i]| >= 2 && !StartsComment(file[i][0]) && !StartsComment(file[i][1])
      ensures Hosts(file[i]) != [] ==> Hosts(file[i])[0] == file[i][1]
    {
    }
    if i :| 0 <= i < |file| && Hosts(file[i]) != [] && d == NormalizeDomain(Hosts(file[i])[0]) && d != [] {
      NormalizeDomainIff(file[i][1], d);
    }
    if i :| 0 <= i < |file| && |file[i]| >= 2 && !StartsComment(file[i][0]) && !StartsComment(file[i][1])
            && NameOf(file[i][1], d) && d != [] {
      NormalizeDomainIff(file[i][1], d);
    }
  }

  // ---- the two readings of a file -----------------------------------------------------------

  /** Every host of every line, as a downloaded list is read. */
  ghost predicate NamedStrictly(file: seq<Line>, d: string) {
    exists i, j :: 0 <= i < |file| && 0 <= j < |Hosts(file[i])| && d == NormalizeDomain(Hosts(file[i])[j]) && d != []
  }

  /** The first host of every line, as a file on disk is read. */
  ghost predicate NamedFirst(file: seq<Line>, d: string) {
    exists i :: 0 <= i < |file| && Hosts(file[i]) != [] && d == NormalizeDomain(Hosts(file[i])[0]) && d != []
  }

  ghost predicate OneHostPerLine(file: seq<Line>) {
    forall i :: 0 <= i < |file| ==> |Hosts(file[i])| <= 1
  }

  /** The two readings agree exactly when every further host on a line is also the first host of
      some line; in particular when lines have at most one host. */
  lemma ReadingsAgreeIff(file: seq<Line>)
    ensures (forall d :: NamedStrictly(file, d) <==> NamedFirst(file, d)) <==>
            (forall i, j :: 0 <= i < |file| && 1 <= j < |Hosts(file[i])| && NormalizeDomain(Hosts(file[i])[j]) != [] ==>
               NamedFirst(file, NormalizeDomain(Hosts(file[i])[j])))
  {
    hide NormalizeDomain, Hosts;
    forall d | NamedFirst(file, d) ensures NamedStrictly(file, d) {
      var i :| 0 <= i < |file| && Hosts(file[i]) != [] && d == NormalizeDomain(Hosts(file[i])[0]) && d != [];
      assert 0 <= 0 < |Hosts(file[i])|;
    }
    if forall d :: NamedStrictly(file, d) <==> NamedFirst(file, d) {
      forall i, j | 0 <= i < |file| && 1 <= j < |Hosts(file[i])| && NormalizeDomain(Hosts(file[i])[j]) != []
        ensures NamedFirst(file, NormalizeDomain(Hosts(file[i])[j]))
      {
        assert NamedStrictly(file, NormalizeDomain(Hosts(file[i])[j]));
      }
    }
  }

  lemma OneHostReadingsAgree(file: seq<Line>)
    requires OneHostPerLine(file)
    ensures forall d :: NamedStrictly(file, d) <==> NamedFirst(file, d)
  {
    ReadingsAgreeIff(file);
    hide NamedStrictly, NamedFirst, NormalizeDomain;
  }

  // ---- compiling ----------------------------------------------------------------------------

  /** Which lists a downloaded file must pass before it is installed. */
  ghost predicate StrictlyValid(file: seq<Line>, syntax: Syntax) {
    && (forall i :: 0 <= i < |file| && !Blank(file[i]) ==>
          && |file[i]| >= 2 && syntax.isAddress(file[i][0])
          && forall j :: 0 <= j < |Hosts(file[i])| ==>
               NormalizeDomain(Hosts(file[i])[j]) != [] && syntax.isDomainName(NormalizeDomain(Hosts(file[i])[j])))
    && 0 < Entries(file) <= syntax.maxEntries
  }

  function Entries(file: seq<Line>): nat {
    if file == [] then 0 else Entries(file[..|file| - 1]) + |Hosts(file[|file| - 1])|
  }

  ghost predicate Named(file: seq<Line>, strict: bool, d: string) {
    if strict then NamedStrictly(file, d) else NamedFirst(file, d)
  }

  /** The compiled tree, as a set of names. */
  ghost predicate Compiled(hole: set<string>, file: seq<Line>, strict: bool, extra: seq<string>, exceptions: seq<string>) {
    forall d :: d in hole <==> (Named(file, strict, d) || (d in extra && d != [])) && !Exempt(d, exceptions)
  }

  method AddHost(hole: set<string>, domain: string, exceptions: seq<string>) returns (r: set<string>)
    ensures r == if Exempt(domain, exceptions) then hole else hole + {domain}
  {
    var exempt := MatchesSuffix(domain, exceptions);
    r := if exempt then hole else hole + {domain};
  }

  /** The names among the first `n` of some host fields. */
  ghost predicate Among(hosts: seq<string>, n: nat, d: string)
    requires n <= |hosts|
  {
    exists j :: 0 <= j < n && d == NormalizeDomain(hosts[j]) && d != []
  }

  ghost predicate Added(before: set<string>, hole: set<string>, hosts: seq<string>, n: nat, exceptions: seq<string>)
    requires n <= |hosts|
  {
    forall d :: d in hole <==> d in before || (Among(hosts, n, d) && !Exempt(d, exceptions))
  }

  lemma AmongNext(hosts: seq<string>, n: nat, d: string)
    requires n < |hosts|
    ensures Among(hosts, n + 1, d) <==> Among(hosts, n, d) || (d == NormalizeDomain(hosts[n]) && d != [])
  {
    hide NormalizeDomain;
  }

  lemma AddedNext(before: set<string>, hole: set<string>, hosts: seq<string>, n: nat, exceptions: seq<string>)
    requires n < |hosts| && Added(before, hole, hosts, n, exceptions)
    ensures var d := NormalizeDomain(hosts[n]);
            Added(before, if d == [] || Exempt(d, exceptions) then hole else hole + {d}, hosts, n + 1, exceptions)
  {
    forall d ensures Among(hosts, n + 1, d) <==> Among(hosts, n, d) || (d == NormalizeDomain(hosts[n]) && d != []) {
      AmongNext(hosts, n, d);
    }
    hide Among, NormalizeDomain, Exempt;
  }

  /** The host loop of one line. `ok` is false when a strict reading must reject the file. */
  method AddLine(before: set<string>, hosts: seq<string>, strict: bool, entries: nat, exceptions: seq<string>, syntax: Syntax)
    returns (ok: bool, hole: set<string>, total: nat)
    ensures !strict ==> ok
    ensures ok ==> Added(before, hole, hosts, |hosts|, exceptions)
    ensures strict ==>
              (ok <==> (entries + |hosts| <= syntax.maxEntries || |hosts| == 0) && forall j :: 0 <= j < |hosts| ==>
                 NormalizeDomain(hosts[j]) != [] && syntax.isDomainName(NormalizeDomain(hosts[j])))
    ensures ok && strict ==> total == entries + |hosts|
  {
    hole, total := before, entries;
    for n := 0 to |hosts|
      invariant Added(before, hole, hosts, n, exceptions)
      invariant strict ==> total == entries + n && (total <= syntax.maxEntries || n == 0)
      invariant strict ==> forall j :: 0 <= j < n ==>
                  NormalizeDomain(hosts[j]) != [] && syntax.isDomainName(NormalizeDomain(hosts[j]))
    {
      AddedNext(before, hole, hosts, n, exceptions);
      hide Added, NormalizeDomain, Exempt;
      var domain := NormalizeDomain(hosts[n]);
      if domain == [] {
        if strict {
          return false, hole, total;
        }
        continue;
      }
      if strict {
        if !syntax.isDomainName(domain) {
          return false, hole, total;
        }
        total := total + 1;
        if total > syntax.maxEntries {
          return false, hole, total;
        }
      }
      hole := AddHost(hole, domain, exceptions);
    }
    return true, hole, total;
  }

  /** The host fields one reading of a line uses. */
  function Used(line: Line, strict: bool): seq<string> {
    if strict || Hosts(line) == [] then Hosts(line) else [Hosts(line)[0]]
  }

  lemma NamedNext(file: seq<Line>, i: nat, strict: bool, d: string)
    requires i < |file|
    ensures Named(file[..i + 1], strict, d) <==> Named(file[..i], strict, d) || Among(Used(file[i], strict), |Used(file[i], strict)|, d)
  {
    hide NormalizeDomain, Hosts;
    var a, b := file[..i], file[..i + 1];
    assert b == a + [file[i]];
    var u := Used(file[i], strict);
    if Among(u, |u|, d) {
      var j :| 0 <= j < |u| && d == NormalizeDomain(u[j]) && d != [];
      assert b[i] == file[i] && u[j] == Hosts(b[i])[j];
      assert Named(b, strict, d);
    }
    if Named(a, strict, d) {
      if strict {
        var k, j :| 0 <= k < |a| && 0 <= j < |Hosts(a[k])| && d == NormalizeDomain(Hosts(a[k])[j]) && d != [];
        assert b[k] == a[k];
      } else {
        var k :| 0 <= k < |a| && Hosts(a[k]) != [] && d == NormalizeDomain(Hosts(a[k])[0]) && d != [];
        assert b[k] == a[k];
      }
    }
    if Named(b, strict, d) {
      if strict {
        var k, j :| 0 <= k < |b| && 0 <= j < |Hosts(b[k])| && d == NormalizeDomain(Hosts(b[k])[j]) && d != [];
        if k < i {
          assert a[k] == b[k];
        } else {
          assert u[j] == Hosts(b[i])[j];
        }
      } else {
        var k :| 0 <= k < |b| && Hosts(b[k]) != [] && d == NormalizeDomain(Hosts(b[k])[0]) && d != [];
        if k < i {
          assert a[k] == b[k];
        } else {
          assert u[0] == Hosts(b[i])[0];
        }
      }
    }
  }

  ghost predicate FromFile(hole: set<string>, file: seq<Line>, strict: bool, exceptions: seq<string>) {
    forall d :: d in hole <==> Named(file, strict, d) && !Exempt(d, exceptions)
  }

  lemma FromFileNext(file: seq<Line>, i: nat, strict: bool, before: set<string>, hole: set<string>, exceptions: seq<string>)
    requires i < |file| && FromFile(before, file[..i], strict, exceptions)
    requires Added(before, hole, Used(file[i], strict), |Used(file[i], strict)|, exceptions)
    ensures FromFile(hole, file[..i + 1], strict, exceptions)
  {
    forall d ensures Named(file[..i + 1], strict, d) <==>
              Named(file[..i], strict, d) || Among(Used(file[i], strict), |Used(file[i], strict)|, d) {
      NamedNext(file, i, strict, d);
    }
    hide Named, Among, Exempt;
  }

  /** The lines so far are acceptable to a strict reading. */
  ghost predicate ValidLine(line: Line, syntax: Syntax) {
    !Blank(line) ==>
      && |line| >= 2 && syntax.isAddress(line[0])
      && forall j :: 0 <= j < |Hosts(line)| ==>
           NormalizeDomain(Hosts(line)[j]) != [] && syntax.isDomainName(NormalizeDomain(Hosts(line)[j]))
  }

  lemma {:induction false} EntriesMonotone(file: seq<Line>, i: nat)
    requires i <= |file|
    ensures Entries(file[..i]) <= Entries(file)
  {
    if i < |file| {
      EntriesMonotone(file[..|file| - 1], i);
      assert file[..|file| - 1][..i] == file[..i];
    } else {
      assert file[..i] == file;
    }
  }

  lemma UsedHosts(line: Line)
    requires !Blank(line) && |line| >= 2
    ensures HostFields(line[1..]) == Used(line, true) == Hosts(line)
    ensures HostFields(line[..2][1..]) == Used(line, false)
  {
    var rest := line[1..];
    assert line[..2][1..] == [rest[0]];
    assert HostFields([rest[0]]) == if Comment(rest[0]) then [] else [rest[0]] by {
      assert [rest[0]][1..] == [];
      assert HostFields([]) == [];
    }
  }

  lemma NothingUsed(file: seq<Line>, i: nat, strict: bool, hole: set<string>, exceptions: seq<string>)
    requires i < |file| && (Blank(file[i]) || |file[i]| < 2)
    requires FromFile(hole, file[..i], strict, exceptions)
    ensures FromFile(hole, file[..i + 1], strict, exceptions)
    ensures Hosts(file[i]) == []
  {
    FromFileNext(file, i, strict, hole, hole, exceptions);
  }

  /** One line of the file. */
  method AddFileLine(file: seq<Line>, i: nat, strict: bool, before: set<string>, entries: nat, exceptions: seq<string>,
                     syntax: Syntax) returns (ok: bool, hole: set<string>, total: nat)
    requires i < |file| && FromFile(before, file[..i], strict, exceptions)
    ensures !strict ==> ok
    ensures ok ==> FromFile(hole, file[..i + 1], strict, exceptions)
    ensures strict ==>
              (ok <==> ValidLine(file[i], syntax) && (entries + |Hosts(file[i])| <= syntax.maxEntries || |Hosts(file[i])| == 0))
    ensures ok && strict ==> total == entries + |Hosts(file[i])|
  {
    hide NormalizeDomain, FromFile, Added;
    var line := file[i];
    if line == [] || Comment(line[0]) {
      NothingUsed(file, i, strict, before, exceptions);
      return true, before, entries;
    }
    if |line| < 2 {
      NothingUsed(file, i, strict, before, exceptions);
      return !strict, before, entries;
    }
    if strict && !syntax.isAddress(line[0]) {
      return false, before, entries;
    }
    UsedHosts(line);
    var fields := if strict then line[1..] else line[..2][1..];
    ok, hole, total := AddLine(before, HostFields(fields), strict, entries, exceptions, syntax);
    if ok {
      FromFileNext(file, i, strict, before, hole, exceptions);
    }
  }

  method AddExtra(listed: set<string>, extra: seq<string>, exceptions: seq<string>) returns (hole: set<string>)
    ensures forall d :: d in hole <==> d in listed || (d in extra && d != [] && !Exempt(d, exceptions))
  {
    hole := listed;
    for j := 0 to |extra|
      invariant forall d :: d in hole <==> d in listed || (d in extra[..j] && d != [] && !Exempt(d, exceptions))
    {
      assert extra[..j + 1] == extra[..j] + [extra[j]];
      hide Exempt;
      if extra[j] == [] {
        continue;
      }
      hole := AddHost(hole, extra[j], exceptions);
    }
    assert extra[..|extra|] == extra;
  }

  lemma NothingNamed(strict: bool, exceptions: seq<string>)
    ensures FromFile({}, [], strict, exceptions)
  {
  }

  lemma NotStrictlyValid(file: seq<Line>, i: nat, syntax: Syntax)
    requires i < |file|
    requires !ValidLine(file[i], syntax) || (Entries(file[..i]) + |Hosts(file[i])| > syntax.maxEntries)
    ensures !StrictlyValid(file, syntax)
  {
    EntriesMonotone(file, i + 1);
    assert file[..i + 1][..i] == file[..i];
    hide NormalizeDomain, Hosts;
  }

  lemma StrictlyValidIff(file: seq<Line>, syntax: Syntax)
    requires forall k :: 0 <= k < |file| ==> ValidLine(file[k], syntax)
    ensures StrictlyValid(file, syntax) <==> 0 < Entries(file) <= syntax.maxEntries
  {
    hide NormalizeDomain, Hosts;
  }

  lemma FileAndExtraCompiled(listed: set<string>, hole: set<string>, file: seq<Line>, strict: bool, extra: seq<string>,
                             exceptions: seq<string>)
    requires FromFile(listed, file, strict, exceptions)
    requires forall d :: d in hole <==> d in listed || (d in extra && d != [] && !Exempt(d, exceptions))
    ensures Compiled(hole, file, strict, extra, exceptions)
  {
    hide Named, Exempt;
  }

  /** Compile a hosts file. A strict reading rejects a list that is not valid; the lenient one
      takes what it can. */
  method BuildHole(file: seq<Line>, strict: bool, extra: seq<string>, exceptions: seq<string>, syntax: Syntax)
    returns (r: Option<set<string>>)
    ensures r.Some? <==> !strict || StrictlyValid(file, syntax)
    ensures r.Some? ==> Compiled(r.value, file, strict, extra, exceptions)
  {
    hide FromFile, ValidLine, StrictlyValid, Hosts, Compiled, Exempt;
    var listed: set<string> := {};
    var entries: nat := 0;
    NothingNamed(strict, exceptions);
    assert file[..0] == [];
    for i := 0 to |file|
      invariant FromFile(listed, file[..i], strict, exceptions)
      invariant strict ==> entries == Entries(file[..i]) && entries <= syntax.maxEntries
      invariant strict ==> forall k :: 0 <= k < i ==> ValidLine(file[k], syntax)
    {
      assert file[..i + 1][..i] == file[..i];
      var ok, after, total := AddFileLine(file, i, strict, listed, entries, exceptions, syntax);
      if !ok {
        NotStrictlyValid(file, i, syntax);
        return None;
      }
      listed, entries := after, if strict then total else 0;
    }
    assert file[..|file|] == file;
    if strict {
      StrictlyValidIff(file, syntax);
      if entries == 0 {
        return None;
      }
    }
    var hole := AddExtra(listed, extra, exceptions);
    FileAndExtraCompiled(listed, hole, file, strict, extra, exceptions);
    return Some(hole);
  }
}

module Blacklist {
  import opened Text
  import opened Wrappers
  import opened Labels
  import opened Selectors
  import opened Blocklist

  /** The state of the middleware together with its file on disk. */
  datatype State = State(enabled: bool, hole: Option<set<string>>, file: seq<Line>, whiteList: seq<string>,
                         persisted: seq<string>, extra: seq<string>, runtime: seq<string>)

  /** A refresh ends in an error, finds nothing new, or has a candidate to validate. */
  datatype Download = DownloadError | Unchanged | Candidate(lines: seq<Line>)

  datatype Op =
    | SetEnabled(on: bool)
    | Reload(fails: bool)
    | Refresh(download: Download)
    | ReplaceHosts(domains: seq<string>, fails: bool)
    | ReplaceExcludes(values: seq<string>, fails: bool)
    | AddRuntime(values: seq<string>)

  function White(s: State): Rules {
    Parse(s.whiteList + s.persisted)
  }

  /** Normalised domains, first occurrences only. */
  function DomainList(values: seq<string>): seq<string> {
    if values == [] then []
    else
      var before := DomainList(values[..|values| - 1]);
      var d := NormalizeDomain(values[|values| - 1]);
      if d == [] || d in before then before else before + [d]
  }

  function Missing(values: seq<string>, have: seq<string>): seq<string> {
    if values == [] then []
    else
      var before := Missing(values[..|values| - 1], have);
      var v := values[|values| - 1];
      if v in have || v in before then before else before + [v]
  }

  ghost predicate Reloaded(s: State, fails: bool, s': State) {
    if fails then s' == s
    else s' == s.(hole := s'.hole) && s'.hole.Some? && Compiled(s'.hole.value, s.file, false, s.extra, White(s).domains)
  }

  /** What each operation may do. */
  ghost predicate Next(syntax: Syntax, s: State, op: Op, s': State) {
    match op
    case SetEnabled(on) => s' == s.(enabled := on)
    case Reload(fails) => Reloaded(s, fails, s')
    case Refresh(Candidate(lines)) =>
      if StrictlyValid(lines, syntax)
      then s' == s.(hole := s'.hole, file := lines) && s'.hole.Some?
           && Compiled(s'.hole.value, lines, true, s.extra, White(s).domains)
      else s' == s
    case Refresh(_) => s' == s
    case ReplaceHosts(domains, fails) => Reloaded(s.(extra := DomainList(domains)), fails, s')
    case ReplaceExcludes(values, fails) => Reloaded(s.(persisted := NormalizeValues(values)), fails, s')
    case AddRuntime(values) => s' == s.(runtime := s.runtime + Missing(NormalizeValues(values), s.runtime))
  }

  predicate SharesLabel(have: seq<string>, wanted: seq<string>) {
    exists l :: l in have && l in wanted
  }

  /** The decision as it is made, from the compiled tree. */
  ghost predicate Blocks(s: State, name: string, labels: seq<string>) {
    var d := NormalizeDomain(name);
    && s.enabled
    && !Exempt(d, Parse(s.runtime).domains) && !SharesLabel(labels, Parse(s.runtime).labels)
    && !Exempt(d, White(s).domains) && !SharesLabel(labels, White(s).labels)
    && s.hole.Some? && d in s.hole.value
  }

  /** The decision as it is meant, from the file and the lists. */
  ghost predicate ShouldBlock(s: State, name: string, labels: seq<string>) {
    var d := NormalizeDomain(name);
    && s.enabled && d != []
    && (NamedFirst(s.file, d) || d in s.extra)
    && !(Exempt(d, White(s).domains) || Exempt(d, Parse(s.runtime).domains))
    && !(SharesLabel(labels, White(s).labels) || SharesLabel(labels, Parse(s.runtime).labels))
  }

  ghost predicate InSync(s: State) {
    s.hole.Some? && Compiled(s.hole.value, s.file, false, s.extra, White(s).domains)
  }

  /** Replacements reload successfully, and downloaded lists have at most one host per line. */
  ghost predicate Clean(op: Op) {
    match op
    case ReplaceHosts(_, fails) => !fails
    case ReplaceExcludes(_, fails) => !fails
    case Refresh(Candidate(lines)) => OneHostPerLine(lines)
    case _ => true
  }

  lemma CompiledAgrees(hole: set<string>, file: seq<Line>, extra: seq<string>, exceptions: seq<string>)
    requires OneHostPerLine(file) && Compiled(hole, file, true, extra, exceptions)
    ensures Compiled(hole, file, false, extra, exceptions)
  {
    OneHostReadingsAgree(file);
    hide NamedStrictly, NamedFirst, Exempt, Hosts;
  }

  lemma SyncKept(syntax: Syntax, s: State, op: Op, s': State)
    requires InSync(s) && Next(syntax, s, op, s') && Clean(op)
    ensures InSync(s')
  {
    hide Compiled, Parse, NormalizeValues, DomainList, StrictlyValid;
    if op.Refresh? && op.download.Candidate? && StrictlyValid(op.download.lines, syntax) {
      CompiledAgrees(s'.hole.value, op.download.lines, s.extra, White(s).domains);
    }
  }

  lemma InSyncDecides(s: State, name: string, labels: seq<string>)
    requires InSync(s)
    ensures Blocks(s, name, labels) <==> ShouldBlock(s, name, labels)
  {
    var d := NormalizeDomain(name);
    assert NamedFirst(s.file, d) ==> d != [];
    hide Parse, NormalizeDomain, Exempt, NamedFirst, SharesLabel;
  }

  // ---- the decision in plain text -------------------------------------------------------------

  /** What a reader of the lists would say: blocking is on, the query spells a name that the file or
      the extra hosts list, no exception is a suffix of it, and no exempt label applies. */
  ghost predicate ReadsAsBlocked(s: State, query: string, labels: seq<string>) {
    exists d :: NameOf(query, d) && d != [] && s.enabled && (FileNames(s.file, d) || d in s.extra)
      && !Covered(s.whiteList + s.persisted, d) && !Covered(s.runtime, d)
      && !ExemptsLabel(s.whiteList + s.persisted, labels) && !ExemptsLabel(s.runtime, labels)
  }

  /** With a tree in step with its lists, exactly the queries that read as blocked are blocked. */
  lemma BlocksAsItReads(s: State, query: string, labels: seq<string>)
    requires InSync(s)
    ensures Blocks(s, query, labels) <==> ReadsAsBlocked(s, query, labels)
  {
    var d := NormalizeDomain(query);
    InSyncDecides(s, query, labels);
    NormalizeDomainIff(query, d);
    NamedFirstIff(s.file, d);
    ExemptIff(s.whiteList + s.persisted, d);
    ExemptIff(s.runtime, d);
    SharedLabelIff(s.whiteList + s.persisted, labels);
    SharedLabelIff(s.runtime, labels);
    hide Parse, NormalizeDomain, NameOf, FileNames, NamedFirst, Exempt, Covered, ExemptsLabel, Blocks;
    if ReadsAsBlocked(s, query, labels) {
      var e :| NameOf(query, e) && e != [] && s.enabled && (FileNames(s.file, e) || e in s.extra)
        && !Covered(s.whiteList + s.persisted, e) && !Covered(s.runtime, e)
        && !ExemptsLabel(s.whiteList + s.persisted, labels) && !ExemptsLabel(s.runtime, labels);
      NormalizeDomainIff(query, e);
    }
  }

  /** The list of normalised domains holds exactly the names its values spell. */
  lemma {:induction false} DomainListMeans(values: seq<string>, d: string)
    ensures d in DomainList(values) <==> d != [] && exists v :: v in values && NameOf(v, d)
  {
    hide NormalizeDomain, NameOf;
    if values != [] {
      var init, last := values[..|values| - 1], values[|values| - 1];
      assert values == init + [last];
      DomainListMeans(init, d);
      NormalizeDomainIff(last, d);
    }
  }

  /** A host name as lists are usually written. */
  ghost predicate PlainHost(h: string) {
    h != [] && Trimmed(h) && Spells(h, h) && h[|h| - 1] != '.' && h[0] != '#'
  }

  lemma EndedHost(h: string, query: string)
    requires PlainHost(h) && Spells(query, h + ".")
    ensures NameOf(query, h) && NameOf(h, h)
  {
    assert Trimmed(query) by {
      assert InLower(query[0], h[0]) && InLower(query[|h|], '.');
    }
    assert query == [] + query + [] && h == [] + h + [];
    var none: string := [];
    assert AllSpace(none) && query == none + query + none && h == none + h + none;
  }

  /** A host of the file or of the extra list, queried as DNS does, with the final dot and in any
      case, is blocked exactly if blocking is on and no exception is a suffix of it or exempts the
      client. */
  lemma ListedHostIsBlockedIff(s: State, h: string, query: string, values: seq<string>, labels: seq<string>)
    requires InSync(s) && PlainHost(h) && Spells(query, h + ".") && s.extra == DomainList(values)
    requires h in values || exists address :: [address, h] in s.file && !StartsComment(address)
    ensures Blocks(s, query, labels) <==>
              && s.enabled
              && !Covered(s.whiteList + s.persisted, h) && !Covered(s.runtime, h)
              && !ExemptsLabel(s.whiteList + s.persisted, labels) && !ExemptsLabel(s.runtime, labels)
  {
    BlocksAsItReads(s, query, labels);
    EndedHost(h, query);
    DomainListMeans(values, h);
    hide Blocks, Covered, ExemptsLabel, NameOf, DomainList;
    if address :| [address, h] in s.file && !StartsComment(address) {
      var i :| 0 <= i < |s.file| && s.file[i] == [address, h];
      assert s.file[i][0] == address && s.file[i][1] == h;
      assert FileNames(s.file, h);
    }
    NormalizeDomainIff(query, h);
    forall e | NameOf(query, e) ensures e == h {
      NormalizeDomainIff(query, e);
    }
  }

  /** Exceptions as lists are usually written cover a name exactly if one of them ends it. */
  lemma PlainExceptionsCoverIff(values: seq<string>, h: string)
    requires forall v :: v in values ==> PlainHost(v) && !StartsAsLabel(v)
    ensures Covered(values, h) <==> exists v, before :: v in values && h == before + v
  {
    forall v, p | v in values && p != [] ensures NameOf(v, p) <==> p == v {
      PlainNameIsItself(v, p);
    }
    hide NameOf, StartsAsLabel;
    if v, before :| v in values && h == before + v {
      assert NameOf(v, v) && v != [];
    }
  }

  lemma PlainNameIsItself(v: string, p: string)
    requires PlainHost(v)
    ensures NameOf(v, p) <==> p == v
  {
    var none: string := [];
    assert AllSpace(none) && v == none + v + none;
    assert NameOf(v, v);
    NormalizeDomainIff(v, v);
    NormalizeDomainIff(v, p);
  }

  /** An operation and the state it leads to. */
  datatype Move = Move(op: Op, to: State)

  ghost predicate Trace(syntax: Syntax, s: State, moves: seq<Move>)
    decreases |moves|
  {
    moves == [] || (Next(syntax, s, moves[0].op, moves[0].to) && Trace(syntax, moves[0].to, moves[1..]))
  }

  function Last(s: State, moves: seq<Move>): State {
    if moves == [] then s else moves[|moves| - 1].to
  }

  /** After an initial load and any sequence of refreshes, replacements and switches: a query is
      blocked exactly when blocking is on, its name is in the file or among the extra hosts, no
      configured, persisted or runtime suffix covers it, and no exempt label applies. */
  lemma {:induction false} BlockedIffListed(syntax: Syntax, s: State, moves: seq<Move>, name: string, labels: seq<string>)
    requires Trace(syntax, s, moves) && InSync(s) && forall m :: m in moves ==> Clean(m.op)
    ensures InSync(Last(s, moves))
    ensures Blocks(Last(s, moves), name, labels) <==> ShouldBlock(Last(s, moves), name, labels)
    decreases |moves|
  {
    hide InSync, Next, Clean, Blocks, ShouldBlock;
    if moves == [] {
      InSyncDecides(s, name, labels);
    } else {
      assert moves[0] in moves;
      SyncKept(syntax, s, moves[0].op, moves[0].to);
      BlockedIffListed(syntax, moves[0].to, moves[1..], name, labels);
      assert Last(moves[0].to, moves[1..]) == Last(s, moves);
    }
  }

  /** What operations change: switching, nothing but the switch; a refresh, the file, and only to a
      valid candidate; a replacement, its list, also when the reload fails; and runtime exceptions
      only join. The configured list never changes. */
  lemma OperationsChangeTheirLists(syntax: Syntax, s: State, op: Op, s': State)
    requires Next(syntax, s, op, s')
    ensures s'.whiteList == s.whiteList
    ensures s'.enabled == if op.SetEnabled? then op.on else s.enabled
    ensures s'.file == if op.Refresh? && op.download.Candidate? && StrictlyValid(op.download.lines, syntax)
                       then op.download.lines else s.file
    ensures if op.ReplaceHosts? then forall d :: d in s'.extra <==> d != [] && exists v :: v in op.domains && NameOf(v, d)
            else s'.extra == s.extra
    ensures s'.persisted == if op.ReplaceExcludes? then NormalizeValues(op.values) else s.persisted
    ensures if op.AddRuntime? then forall v :: v in s'.runtime <==> v in s.runtime || v in NormalizeValues(op.values)
            else s'.runtime == s.runtime
  {
    hide StrictlyValid, NormalizeValues, NameOf, Compiled;
    match op
    case ReplaceHosts(domains, _) =>
      forall d ensures d in DomainList(domains) <==> d != [] && exists v :: v in domains && NameOf(v, d) {
        DomainListMeans(domains, d);
      }
      hide DomainList;
    case AddRuntime(values) =>
      forall v ensures v in Missing(NormalizeValues(values), s.runtime) <==> v in NormalizeValues(values) && v !in s.runtime {
        MissingMeans(NormalizeValues(values), s.runtime, v);
      }
      hide Missing;
    case _ =>
  }

  lemma {:induction false} MissingMeans(values: seq<string>, have: seq<string>, v: string)
    ensures v in Missing(values, have) <==> v in values && v !in have
  {
    if values != [] {
      var init := values[..|values| - 1];
      assert values == init + [values[|values| - 1]];
      MissingMeans(init, have, v);
    }
  }

  // ---- when a reload fails, or a file is read in two ways -------------------------------------

  /** Every query of every client is decided as it is meant. */
  ghost predicate RightDecisions(s: State) {
    forall name, labels :: Blocks(s, name, labels) <==> ShouldBlock(s, name, labels)
  }

  /** No exception of any kind covers the name. */
  ghost predicate Exposed(s: State, d: string) {
    !Exempt(d, White(s).domains) && !Exempt(d, Parse(s.runtime).domains)
  }

  ghost predicate Meant(s: State, d: string) {
    d != [] && (NamedFirst(s.file, d) || d in s.extra)
  }

  /** For any compiled tree: all decisions are right exactly if blocking is off, or tree and lists
      agree on every name that no exception covers. */
  lemma RightIff(s: State)
    requires s.hole.Some?
    ensures RightDecisions(s) <==>
              (s.enabled ==> forall name :: Exposed(s, NormalizeDomain(name)) ==>
                               (NormalizeDomain(name) in s.hole.value <==> Meant(s, NormalizeDomain(name))))
  {
    hide Parse, NormalizeDomain, Exempt, NamedFirst, White;
    if RightDecisions(s) && s.enabled {
      forall name | Exposed(s, NormalizeDomain(name))
        ensures NormalizeDomain(name) in s.hole.value <==> Meant(s, NormalizeDomain(name))
      {
        assert Blocks(s, name, []) <==> ShouldBlock(s, name, []);
      }
    }
  }

  /** Extra hosts that are replaced without a reload: all decisions stay right exactly if blocking
      is off, or the old and the new list differ in no name that the file lacks and no exception
      covers. */
  lemma FailedHostsStayRightIff(syntax: Syntax, s: State, domains: seq<string>, s': State)
    requires InSync(s) && Next(syntax, s, ReplaceHosts(domains, true), s')
    ensures RightDecisions(s') <==>
              (s.enabled ==> forall name :: var d := NormalizeDomain(name);
                 d != [] && !NamedFirst(s.file, d) && Exposed(s, d) ==> (d in s.extra <==> d in s'.extra))
  {
    hide Parse, NormalizeDomain, Exempt, DomainList, RightDecisions;
    RightIff(s');
    forall d | Exposed(s, d) ensures d in s.hole.value <==> Meant(s, d) {}
    assert forall d :: NamedFirst(s.file, d) ==> d != [];
    hide NamedFirst;
    forall name | Exposed(s, NormalizeDomain(name)) ensures
      var d := NormalizeDomain(name);
      (d in s'.hole.value <==> Meant(s', d)) <==> (d != [] && !NamedFirst(s.file, d) ==> (d in s.extra <==> d in s'.extra))
    {
    }
  }

  /** Exceptions that are replaced without a reload: the new ones apply at once, but a name only
      the old ones covered is missing from the tree. All decisions stay right exactly if blocking
      is off, or every listed name the old exceptions cover is still covered. */
  lemma FailedExcludesStayRightIff(syntax: Syntax, s: State, values: seq<string>, s': State)
    requires InSync(s) && Next(syntax, s, ReplaceExcludes(values, true), s')
    ensures RightDecisions(s') <==>
              (s.enabled ==> forall name :: var d := NormalizeDomain(name);
                 Meant(s, d) && Exempt(d, White(s).domains) ==> !Exposed(s', d))
  {
    hide Parse, NormalizeDomain, Exempt, NormalizeValues, RightDecisions;
    RightIff(s');
    assert forall d :: NamedFirst(s.file, d) ==> d != [];
    hide NamedFirst;
    forall name | Exposed(s', NormalizeDomain(name)) ensures
      var d := NormalizeDomain(name);
      (d in s'.hole.value <==> Meant(s', d)) <==> !(Meant(s, d) && Exempt(d, White(s).domains))
    {
    }
  }

  /** A list with several hosts on a line, just downloaded: all decisions are right exactly if
      blocking is off, or every name that only the strict reading finds is listed as an extra host
      or covered by an exception. */
  lemma RefreshDecidesRightIff(syntax: Syntax, s: State, lines: seq<Line>, s': State)
    requires Next(syntax, s, Refresh(Candidate(lines)), s') && StrictlyValid(lines, syntax)
    ensures RightDecisions(s') <==>
              (s.enabled ==> forall name :: var d := NormalizeDomain(name);
                 NamedStrictly(lines, d) && !NamedFirst(lines, d) ==> d in s.extra || !Exposed(s, d))
  {
    hide Parse, NormalizeDomain, Exempt, StrictlyValid, RightDecisions;
    RightIff(s');
    FirstIsStrict(lines);
    hide NamedStrictly, NamedFirst;
    forall name | Exposed(s, NormalizeDomain(name)) ensures
      var d := NormalizeDomain(name);
      (d in s'.hole.value <==> Meant(s', d)) <==> (NamedStrictly(lines, d) && !NamedFirst(lines, d) ==> d in s.extra)
    {
    }
  }

  lemma FirstIsStrict(file: seq<Line>)
    ensures forall d :: NamedFirst(file, d) ==> NamedStrictly(file, d) && d != []
    ensures forall d :: NamedStrictly(file, d) ==> d != []
  {
    hide Hosts, NormalizeDomain;
  }

  /** Whatever went wrong before, an operation that reloads the file puts the tree right. */
  lemma ReloadRepairs(syntax: Syntax, s: State, op: Op, s': State)
    requires Next(syntax, s, op, s')
    requires op == Reload(false) || (op.ReplaceHosts? && !op.fails) || (op.ReplaceExcludes? && !op.fails)
    ensures RightDecisions(s')
  {
    hide Parse, DomainList, NormalizeValues, Blocks, ShouldBlock;
    forall name, labels ensures Blocks(s', name, labels) <==> ShouldBlock(s', name, labels) {
      InSyncDecides(s', name, labels);
    }
  }

  // ---- the middleware object ------------------------------------------------------------------

  class BlackList {
    const syntax: Syntax
    var enabled: bool
    var hole: Option<set<string>>
    var file: seq<Line>
    var whiteList: seq<string>
    var persistedList: seq<string>
    var extraHosts: seq<string>
    var whiteRules: Rules
    var runtimeList: seq<string>
    var runtimeRules: Rules

    ghost function Contents(): State
      reads this
    {
      State(enabled, hole, file, whiteList, persistedList, extraHosts, runtimeList)
    }

    /** The parsed rules are those of the lists. */
    ghost predicate Valid()
      reads this
    {
      whiteRules == White(Contents()) && runtimeRules == Parse(runtimeList)
    }

    constructor (syntax: Syntax, on: bool, file: seq<Line>, excludes: seq<string>, persisted: seq<string>, hosts: seq<string>)
      ensures Valid() && this.syntax == syntax
      ensures Contents() == State(on, None, file, NormalizeValues(excludes), NormalizeValues(persisted), DomainList(hosts), [])
    {
      this.syntax, enabled, hole, this.file := syntax, on, None, file;
      whiteList, persistedList, extraHosts := NormalizeValues(excludes), NormalizeValues(persisted), DomainList(hosts);
      whiteRules := Parse(NormalizeValues(excludes) + NormalizeValues(persisted));
      runtimeList, runtimeRules := [], Parse([]);
    }

    /** Rules that look unset are parsed again from their lists, which changes nothing. */
    method Run(name: string, labels: seq<string>) returns (blocked: bool)
      requires Valid()
      ensures blocked <==> Blocks(Contents(), name, labels)
    {
      var runtime, config := runtimeRules, whiteRules;
      if |runtime.domains| == 0 && |runtime.labels| == 0 && |runtimeList| > 0 {
        runtime := ParseSelectors(runtimeList);
      }
      if |config.domains| == 0 && |config.labels| == 0 && |whiteList| > 0 {
        config := ParseSelectors(whiteList);
        FallbackIsEmpty(whiteList, persistedList);
      }
      assert runtime == Parse(runtimeList) && config == White(Contents());
      hide Parse, NormalizeDomain;
      if !enabled {
        return false;
      }
      var domain := NormalizeDomain(name);
      var suffix := MatchesSuffix(domain, runtime.domains);
      var labelled := MatchesAnyLabel(labels, runtime.labels);
      if suffix || labelled {
        return false;
      }
      suffix := MatchesSuffix(domain, config.domains);
      labelled := MatchesAnyLabel(labels, config.labels);
      if suffix || labelled {
        return false;
      }
      if hole.None? {
        return false;
      }
      return domain in hole.value;
    }

    method SetEnabled(on: bool)
      requires Valid()
      modifies this`enabled
      ensures Valid() && Next(syntax, old(Contents()), Op.SetEnabled(on), Contents())
    {
      enabled := on;
    }

    method ReloadHole(fails: bool) returns (ok: bool)
      requires Valid()
      modifies this`hole
      ensures Valid() && ok == !fails && Next(syntax, old(Contents()), Reload(fails), Contents())
    {
      hide Parse, Compiled, StrictlyValid;
      if fails {
        return false;
      }
      hole := BuildHole(file, false, extraHosts, whiteRules.domains, syntax);
      return true;
    }

    /** `ok` is false for a download error and for a candidate that does not validate. */
    method Refresh(download: Download) returns (ok: bool)
      requires Valid()
      modifies this`hole, this`file
      ensures Valid() && Next(syntax, old(Contents()), Op.Refresh(download), Contents())
      ensures ok <==> download.Unchanged? || (download.Candidate? && StrictlyValid(download.lines, syntax))
    {
      hide Parse, Compiled, StrictlyValid;
      match download
      case DownloadError => return false;
      case Unchanged => return true;
      case Candidate(lines) =>
        var prepared := BuildHole(lines, true, extraHosts, whiteRules.domains, syntax);
        if prepared.None? {
          return false;
        }
        hole, file := prepared, lines;
        return true;
    }

    method ReplacePersistedHosts(domains: seq<string>, fails: bool) returns (ok: bool)
      requires Valid()
      modifies this`extraHosts, this`hole
      ensures Valid() && ok == !fails && Next(syntax, old(Contents()), ReplaceHosts(domains, fails), Contents())
    {
      hide Parse, Compiled;
      var normalized: seq<string> := [];
      for i := 0 to |domains|
        invariant normalized == DomainList(domains[..i])
      {
        assert domains[..i + 1][..i] == domains[..i];
        var d := NormalizeDomain(domains[i]);
        if d == [] || d in normalized {
          continue;
        }
        normalized := normalized + [d];
      }
      assert domains[..|domains|] == domains;
      extraHosts := normalized;
      ok := ReloadHole(fails);
    }

    method ReplacePersistedExcludes(values: seq<string>, fails: bool) returns (ok: bool)
      requires Valid()
      modifies this`persistedList, this`whiteRules, this`hole
      ensures Valid() && ok == !fails && Next(syntax, old(Contents()), ReplaceExcludes(values, fails), Contents())
    {
      hide Parse, Compiled;
      persistedList := NormalizeValues(values);
      whiteRules := ParseSelectors(whiteList + persistedList);
      ok := ReloadHole(fails);
    }

    method AddRuntimeWhitelist(values: seq<string>) returns (ok: bool)
      requires Valid()
      modifies this`runtimeList, this`runtimeRules
      ensures Valid() && Next(syntax, old(Contents()), AddRuntime(values), Contents())
      ensures ok <==> Contents() != old(Contents())
    {
      hide Parse;
      var normalized := NormalizeValues(values);
      var added: seq<string> := [];
      for i := 0 to |normalized|
        invariant added == Missing(normalized[..i], runtimeList)
      {
        assert normalized[..i + 1][..i] == normalized[..i];
        if normalized[i] in runtimeList || normalized[i] in added {
          continue;
        }
        added := added + [normalized[i]];
      }
      assert normalized[..|normalized|] == normalized;
      if |added| == 0 {
        assert runtimeList + [] == runtimeList;
        return false;
      }
      assert |runtimeList + added| > |runtimeList|;
      runtimeList := runtimeList + added;
      runtimeRules := ParseSelectors(runtimeList);
      return true;
    }
  }

  lemma FallbackIsEmpty(a: seq<string>, b: seq<string>)
    requires Parse(a + b) == Rules([], [])
    ensures Parse(a) == Rules([], [])
  {
    ParseGrows(a, b);
    HeadOccurs(Parse(a).domains);
    HeadOccurs(Parse(a).labels);
    hide Parse;
  }

  lemma HeadOccurs(s: seq<string>)
    ensures s != [] ==> s[0] in s
  {
  }
}
