/**
 Client labels. The database holds members, labels and links between them; the tagger keeps
 two indexes derived from the links, one by exact address and one list of networks, and looks
 clients up in those.
 */
module TagStore {
  import opened Wrappers
  import opened Text
  import opened Sorting
  import opened Labels

  type Link = (string, string)     // member address, label

  /** The three tables; links cascade when a member or a label goes. */
  datatype Tables = Tables(members: set<string>, labels: set<string>, links: set<Link>)

  /** Links refer to existing rows, and every stored name is trimmed and not empty. */
  ghost predicate WellFormed(t: Tables) {
    && (forall a, l :: (a, l) in t.links ==> a in t.members && l in t.labels)
    && (forall a :: a in t.members ==> Proper(a))
    && (forall l :: l in t.labels ==> Proper(l))
  }

  predicate Proper(s: string) {
    s != [] && Trimmed(s)
  }

  datatype Op =
    | CreateLabel(name: string)
    | AddMembers(name: string, addresses: seq<string>)
    | ReplaceLabels(address: string, names: seq<string>)
    | RemoveMember(name: string, address: string)
    | DeleteMember(address: string)
    | DeleteLabel(name: string)

  /** Does the operation reach the database? */
  predicate Accepted(op: Op) {
    match op
    case CreateLabel(name) => TrimSpace(name) != []
    case AddMembers(name, _) => TrimSpace(name) != []
    case ReplaceLabels(address, _) => TrimSpace(address) != []
    case RemoveMember(name, address) => TrimSpace(name) != [] && TrimSpace(address) != []
    case DeleteMember(address) => TrimSpace(address) != []
    case DeleteLabel(name) => TrimSpace(name) != []
  }

  function WithoutMember(t: Tables, address: string): Tables {
    t.(members := t.members - {address}, links := set k | k in t.links && k.0 != address)
  }

  function Apply(t: Tables, op: Op): Tables {
    if !Accepted(op) then t
    else match op
         case CreateLabel(name) => t.(labels := t.labels + {TrimSpace(name)})
         case AddMembers(name, addresses) =>
           if addresses == [] then t
           else
             var l := TrimSpace(name);
             var added := LabelSet(addresses);
             Tables(t.members + added, t.labels + {l}, t.links + (set a | a in added :: (a, l)))
         case ReplaceLabels(address, names) =>
           var a := TrimSpace(address);
           var cleared := WithoutMember(t, a);
           var wanted := LabelSet(names);
           if wanted == {} then cleared
           else Tables(cleared.members + {a}, cleared.labels + wanted, cleared.links + (set l | l in wanted :: (a, l)))
         case RemoveMember(name, address) =>
           var a := TrimSpace(address);
           var links := t.links - {(a, TrimSpace(name))};
           Tables(if exists k :: k in links && k.0 == a then t.members else t.members - {a}, t.labels, links)
         case DeleteMember(address) => WithoutMember(t, TrimSpace(address))
         case DeleteLabel(name) =>
           var l := TrimSpace(name);
           t.(labels := t.labels - {l}, links := set k | k in t.links && k.1 != l)
  }

  lemma LabelSetProper(names: seq<string>)
    ensures forall x :: x in LabelSet(names) ==> Proper(x)
  {
    forall x | x in LabelSet(names) ensures Proper(x) {
      var l :| l in names && TrimSpace(l) != [] && x == TrimSpace(l);
      TrimSpaceTrims(l);
    }
  }

  lemma WellFormedKept(t: Tables, op: Op)
    requires WellFormed(t)
    ensures WellFormed(Apply(t, op))
  {
    match op
    case CreateLabel(name) =>
      TrimSpaceTrims(name);
      hide TrimSpace, Trimmed;
    case AddMembers(name, addresses) =>
      LabelSetProper(addresses);
      TrimSpaceTrims(name);
      hide LabelSet, TrimSpace, Trimmed;
    case ReplaceLabels(address, names) =>
      LabelSetProper(names);
      TrimSpaceTrims(address);
      hide LabelSet, TrimSpace, Trimmed;
    case _ =>
      hide TrimSpace, Trimmed;
  }

  // ---- the statements -------------------------------------------------------------------------

  /** `Put` inserts with a clause that ignores a conflict, `Insert` without one. */
  datatype Stmt =
    | PutLabel(name: string)
    | PutMember(address: string)
    | PutLink(address: string, name: string)
    | InsertMember(address: string)
    | InsertLink(address: string, name: string)
    | DropLink(address: string, name: string)
    | DropMemberIfUnlinked(address: string)
    | DropMember(address: string)
    | DropLabel(name: string)

  /** One statement: primary keys and foreign keys are enforced, and deletions cascade. */
  function Execute(t: Tables, s: Stmt): Option<Tables> {
    match s
    case PutLabel(l) => Some(t.(labels := t.labels + {l}))
    case PutMember(a) => Some(t.(members := t.members + {a}))
    case PutLink(a, l) =>
      if (a, l) in t.links then Some(t)
      else if a in t.members && l in t.labels then Some(t.(links := t.links + {(a, l)})) else None
    case InsertMember(a) => if a in t.members then None else Some(t.(members := t.members + {a}))
    case InsertLink(a, l) =>
      if (a, l) !in t.links && a in t.members && l in t.labels then Some(t.(links := t.links + {(a, l)})) else None
    case DropLink(a, l) => Some(t.(links := t.links - {(a, l)}))
    case DropMemberIfUnlinked(a) => Some(if exists k :: k in t.links && k.0 == a then t else WithoutMember(t, a))
    case DropMember(a) => Some(WithoutMember(t, a))
    case DropLabel(l) => Some(t.(labels := t.labels - {l}, links := set k | k in t.links && k.1 != l))
  }

  /** A transaction: all statements, or None as soon as one is refused. */
  function ExecuteAll(t: Tables, stmts: seq<Stmt>): Option<Tables> {
    if stmts == [] then Some(t)
    else match ExecuteAll(t, stmts[..|stmts| - 1])
         case None => None
         case Some(u) => Execute(u, stmts[|stmts| - 1])
  }

  lemma ExecuteNext(t: Tables, stmts: seq<Stmt>, s: Stmt)
    ensures ExecuteAll(t, stmts + [s]) == match ExecuteAll(t, stmts) case None => None case Some(u) => Execute(u, s)
  {
    assert (stmts + [s])[..|stmts|] == stmts;
  }

  /** The statements for the trimmed, nonempty, not yet seen addresses of a list. */
  function AddressStatements(l: string, addresses: seq<string>): seq<Stmt> {
    if addresses == [] then []
    else
      var before := AddressStatements(l, addresses[..|addresses| - 1]);
      var a := TrimSpace(addresses[|addresses| - 1]);
      if a == [] || a in LabelSet(addresses[..|addresses| - 1]) then before else before + [PutMember(a), PutLink(a, l)]
  }

  function LabelStatements(a: string, labels: seq<string>): seq<Stmt> {
    if labels == [] then []
    else
      var l := labels[|labels| - 1];
      LabelStatements(a, labels[..|labels| - 1]) + [PutLabel(l), InsertLink(a, l)]
  }

  /** What each operation sends to the database. */
  function Statements(op: Op): seq<Stmt> {
    match op
    case CreateLabel(name) => [PutLabel(TrimSpace(name))]
    case AddMembers(name, addresses) =>
      if addresses == [] then [] else AddStatements(TrimSpace(name), addresses)
    case ReplaceLabels(address, names) =>
      var labels := NormalizeLabels(names);
      [DropMember(TrimSpace(address))]
      + (if labels == [] then [] else [InsertMember(TrimSpace(address))] + LabelStatements(TrimSpace(address), labels))
    case RemoveMember(name, address) =>
      [DropLink(TrimSpace(address), TrimSpace(name)), DropMemberIfUnlinked(TrimSpace(address))]
    case DeleteMember(address) => [DropMember(TrimSpace(address))]
    case DeleteLabel(name) => [DropLabel(TrimSpace(name))]
  }

  /** The loop over addresses with its set of those already seen. */
  method BuildAdd(name: string, addresses: seq<string>) returns (stmts: seq<Stmt>)
    ensures stmts == Statements(AddMembers(name, addresses))
  {
    hide TrimSpace, LabelSet, Statements, AddStatements;
    StatementsOfAdd(name, addresses);
    if |addresses| == 0 {
      return [];
    }
    var l := TrimSpace(name);
    stmts := [PutLabel(l)];
    var seen: set<string> := {};
    NoAddressesYet();
    NoAddStatementsYet(l);
    for i := 0 to |addresses|
      invariant seen == LabelSet(addresses[..i])
      invariant stmts == AddStatements(l, addresses[..i])
    {
      assert addresses[..i + 1] == addresses[..i] + [addresses[i]];
      LabelSetNext(addresses[..i], addresses[i]);
      AddStatementsNext(l, addresses[..i], addresses[i]);
      var member := TrimSpace(addresses[i]);
      if member == "" {
        continue;
      }
      if member in seen {
        continue;
      }
      seen := seen + {member};
      stmts := stmts + [PutMember(member), PutLink(member, l)];
    }
    assert addresses[..|addresses|] == addresses;
  }

  /** The label, and then the addresses. */
  function AddStatements(l: string, addresses: seq<string>): seq<Stmt> {
    [PutLabel(l)] + AddressStatements(l, addresses)
  }

  lemma NoAddStatementsYet(l: string)
    ensures AddStatements(l, []) == [PutLabel(l)]
  {
  }

  lemma StatementsOfAdd(name: string, addresses: seq<string>)
    ensures Statements(AddMembers(name, addresses))
         == if addresses == [] then [] else AddStatements(TrimSpace(name), addresses)
  {
  }

  lemma AddStatementsNext(l: string, some: seq<string>, x: string)
    ensures var a := TrimSpace(x); var before := AddStatements(l, some);
            AddStatements(l, some + [x])
            == if a == [] || a in LabelSet(some) then before else before + [PutMember(a), PutLink(a, l)]
  {
    hide LabelSet;
    assert (some + [x])[..|some|] == some;
  }

  lemma NoAddressesYet()
    ensures LabelSet([]) == {}
  {
  }

  lemma LabelSetNext(names: seq<string>, x: string)
    ensures LabelSet(names + [x]) == LabelSet(names) + (if TrimSpace(x) == [] then {} else {TrimSpace(x)})
  {
  }

  method BuildReplace(address: string, names: seq<string>) returns (stmts: seq<Stmt>)
    ensures stmts == Statements(ReplaceLabels(address, names))
  {
    hide TrimSpace, NormalizeLabels, LabelSet;
    var a := TrimSpace(address);
    var labels := Normalize(names);
    stmts := [DropMember(a)];
    if |labels| == 0 {
      return;
    }
    stmts := stmts + [InsertMember(a)];
    ghost var head := stmts;
    for i := 0 to |labels|
      invariant stmts == head + LabelStatements(a, labels[..i])
    {
      assert labels[..i + 1][..i] == labels[..i];
      stmts := stmts + [PutLabel(labels[i]), InsertLink(a, labels[i])];
    }
    assert labels[..|labels|] == labels;
    assert head + LabelStatements(a, labels) == [DropMember(a)] + ([InsertMember(a)] + LabelStatements(a, labels));
  }

  // ---- running them ---------------------------------------------------------------------------

  function Added(t: Tables, l: string, addresses: set<string>): Tables {
    Tables(t.members + addresses, t.labels + {l}, t.links + (set a | a in addresses :: (a, l)))
  }

  lemma PutOne(t: Tables, l: string, some: set<string>, a: string)
    ensures var u := Added(t, l, some);
            && Execute(u, PutMember(a)).Some?
            && Execute(Execute(u, PutMember(a)).value, PutLink(a, l)) == Some(Added(t, l, some + {a}))
  {
    var v, w := Execute(Added(t, l, some), PutMember(a)).value, Added(t, l, some + {a});
    assert v.members == w.members && v.labels == w.labels;
    assert v.links + {(a, l)} == w.links;
    assert (a, l) in v.links ==> v.links + {(a, l)} == v.links;
  }

  lemma {:induction false} AddressesExecute(t: Tables, l: string, addresses: seq<string>)
    ensures ExecuteAll(t, AddStatements(l, addresses)) == Some(Added(t, l, LabelSet(addresses)))
  {
    hide ExecuteAll, Added, LabelSet, TrimSpace, AddStatements;
    if addresses == [] {
      ExecuteFirst(t, l);
      NoAddStatementsYet(l);
    } else {
      var init, x := addresses[..|addresses| - 1], addresses[|addresses| - 1];
      assert addresses == init + [x];
      AddressesExecute(t, l, init);
      OneMoreAddress(t, l, init, x);
    }
  }

  lemma OneMoreAddress(t: Tables, l: string, some: seq<string>, x: string)
    requires ExecuteAll(t, AddStatements(l, some)) == Some(Added(t, l, LabelSet(some)))
    ensures ExecuteAll(t, AddStatements(l, some + [x])) == Some(Added(t, l, LabelSet(some + [x])))
  {
    hide Execute, ExecuteAll, Added, LabelSet, TrimSpace, AddStatements;
    LabelSetNext(some, x);
    AddStatementsNext(l, some, x);
    var a, before := TrimSpace(x), AddStatements(l, some);
    if a != [] && a !in LabelSet(some) {
      PutOne(t, l, LabelSet(some), a);
      ExecuteTwo(t, before, PutMember(a), PutLink(a, l));
      assert before + [PutMember(a), PutLink(a, l)] == before + [PutMember(a)] + [PutLink(a, l)];
    } else {
      assert LabelSet(some + [x]) == LabelSet(some);
    }
  }

  lemma ExecuteFirst(t: Tables, l: string)
    ensures ExecuteAll(t, [PutLabel(l)]) == Some(Added(t, l, LabelSet([])))
  {
    ExecuteOne(t, PutLabel(l));
    NoAddressesYet();
    var w := Added(t, l, {});
    assert w.members == t.members && w.links == t.links;
  }

  function Linked(t: Tables, a: string, labels: seq<string>): Tables {
    Tables(t.members, t.labels + (set l | l in labels), t.links + (set l | l in labels :: (a, l)))
  }

  lemma LinkOne(t: Tables, a: string, labels: seq<string>, l: string)
    requires a in t.members && (a, l) !in t.links && l !in labels
    ensures var u := Linked(t, a, labels);
            && Execute(u, PutLabel(l)).Some?
            && Execute(Execute(u, PutLabel(l)).value, InsertLink(a, l)) == Some(Linked(t, a, labels + [l]))
  {
    var v, w := Execute(Linked(t, a, labels), PutLabel(l)).value, Linked(t, a, labels + [l]);
    assert v.labels == w.labels;
    assert v.links + {(a, l)} == w.links;
  }

  /** After `head` has led to `t`, where the member has no link: distinct labels are all linked. */
  lemma {:induction false} LabelsExecute(start: Tables, head: seq<Stmt>, t: Tables, a: string, labels: seq<string>)
    requires ExecuteAll(start, head) == Some(t) && a in t.members && NoDuplicates(labels)
    requires forall l :: (a, l) !in t.links
    ensures ExecuteAll(start, head + LabelStatements(a, labels)) == Some(Linked(t, a, labels))
  {
    hide ExecuteAll, Linked, LabelStatements, NoDuplicates;
    if labels == [] {
      NoLabels(head, t, a);
    } else {
      var init, l := labels[..|labels| - 1], labels[|labels| - 1];
      assert labels == init + [l];
      NoDuplicatesPrefix(labels);
      LabelsExecute(start, head, t, a, init);
      OneMoreLabel(start, head, t, a, init, l);
    }
  }

  lemma OneMoreLabel(start: Tables, head: seq<Stmt>, t: Tables, a: string, labels: seq<string>, l: string)
    requires a in t.members && (a, l) !in t.links && l !in labels
    requires ExecuteAll(start, head + LabelStatements(a, labels)) == Some(Linked(t, a, labels))
    ensures ExecuteAll(start, head + LabelStatements(a, labels + [l])) == Some(Linked(t, a, labels + [l]))
  {
    hide Execute, ExecuteAll, Linked, LabelStatements;
    LabelStatementsNext(head, a, labels, l);
    LinkOne(t, a, labels, l);
    ExecuteTwo(start, head + LabelStatements(a, labels), PutLabel(l), InsertLink(a, l));
  }

  lemma ExecuteTwo(t: Tables, stmts: seq<Stmt>, x: Stmt, y: Stmt)
    requires ExecuteAll(t, stmts).Some? && Execute(ExecuteAll(t, stmts).value, x).Some?
    ensures ExecuteAll(t, stmts + [x] + [y]) == Execute(Execute(ExecuteAll(t, stmts).value, x).value, y)
  {
    hide Execute, ExecuteAll;
    ExecuteNext(t, stmts, x);
    ExecuteNext(t, stmts + [x], y);
  }

  lemma NoLabels(head: seq<Stmt>, t: Tables, a: string)
    ensures head + LabelStatements(a, []) == head && Linked(t, a, []) == t
  {
    var u := Linked(t, a, []);
    assert u.labels == t.labels && u.links == t.links;
  }

  lemma LabelStatementsNext(head: seq<Stmt>, a: string, labels: seq<string>, l: string)
    ensures head + LabelStatements(a, labels + [l])
         == head + LabelStatements(a, labels) + [PutLabel(l)] + [InsertLink(a, l)]
  {
    assert (labels + [l])[..|labels|] == labels;
  }

  lemma ReplaceExecutes(t: Tables, address: string, names: seq<string>)
    requires TrimSpace(address) != []
    ensures ExecuteAll(t, Statements(ReplaceLabels(address, names))) == Some(Apply(t, ReplaceLabels(address, names)))
  {
    var a, labels := TrimSpace(address), NormalizeLabels(names);
    NormalizeLabelsIsTheSet(names);
    hide NormalizeLabels, TrimSpace, LabelSet;
    var cleared := WithoutMember(t, a);
    ExecuteNext(t, [], DropMember(a));
    assert [] + [DropMember(a)] == [DropMember(a)];
    if labels == [] {
      forall x ensures x !in LabelSet(names) {
        assert x !in labels;
      }
      assert [DropMember(a)] + [] == [DropMember(a)];
    } else {
      assert labels[0] in LabelSet(names);
      ExecuteNext(t, [DropMember(a)], InsertMember(a));
      var head := [DropMember(a)] + [InsertMember(a)];
      var there := cleared.(members := cleared.members + {a});
      LabelsExecute(t, head, there, a, labels);
      assert head + LabelStatements(a, labels) == [DropMember(a)] + ([InsertMember(a)] + LabelStatements(a, labels));
      assert (set l | l in labels) == LabelSet(names);
      assert (set l | l in labels :: (a, l)) == (set l | l in LabelSet(names) :: (a, l));
    }
  }

  lemma ExecuteOne(t: Tables, s: Stmt)
    ensures ExecuteAll(t, [s]) == Execute(t, s)
  {
    assert [s][..0] == [];
  }

  lemma AddExecutes(t: Tables, name: string, addresses: seq<string>)
    requires TrimSpace(name) != []
    ensures ExecuteAll(t, Statements(AddMembers(name, addresses))) == Some(Apply(t, AddMembers(name, addresses)))
  {
    hide LabelSet, TrimSpace, AddStatements, Execute;
    if addresses != [] {
      AddressesExecute(t, TrimSpace(name), addresses);
      hide ExecuteAll;
    }
  }

  /** Run in one transaction, the statements of an operation are never refused, and together they
      have exactly the effect the operation is described by. */
  lemma StatementsApply(t: Tables, op: Op)
    requires Accepted(op)
    ensures ExecuteAll(t, Statements(op)) == Some(Apply(t, op))
  {
    match op
    case AddMembers(name, addresses) => AddExecutes(t, name, addresses);
    case ReplaceLabels(address, names) => ReplaceExecutes(t, address, names);
    case RemoveMember(name, address) =>
      hide TrimSpace, ExecuteAll;
      RemoveExecutes(t, TrimSpace(name), TrimSpace(address));
    case _ =>
      hide TrimSpace, ExecuteAll;
      ExecuteOne(t, Statements(op)[0]);
  }

  lemma RemoveExecutes(t: Tables, l: string, a: string)
    ensures var links := t.links - {(a, l)};
            ExecuteAll(t, [DropLink(a, l), DropMemberIfUnlinked(a)])
            == Some(Tables(if exists k :: k in links && k.0 == a then t.members else t.members - {a}, t.labels, links))
  {
    ExecuteNext(t, [], DropLink(a, l));
    ExecuteNext(t, [DropLink(a, l)], DropMemberIfUnlinked(a));
    assert [] + [DropLink(a, l)] == [DropLink(a, l)];
    assert [DropLink(a, l)] + [DropMemberIfUnlinked(a)] == [DropLink(a, l), DropMemberIfUnlinked(a)];
    var links := t.links - {(a, l)};
    if !exists k :: k in links && k.0 == a {
      assert (set k | k in links && k.0 != a) == links;
    }
  }

  // ---- what a transaction changes -------------------------------------------------------------

  ghost predicate Has(t: Tables, address: string, name: string) {
    (address, name) in t.links
  }

  /** The tables after the statements of an operation. */
  function Transact(t: Tables, op: Op): Option<Tables> {
    ExecuteAll(t, Statements(op))
  }

  /** The statements of a replacement leave a member with exactly the labels asked for, delete a
      member without any, and change no other member. */
  lemma ReplaceSetsExactly(t: Tables, address: string, names: seq<string>, a: string, l: string)
    requires TrimSpace(address) != []
    ensures var r := Transact(t, ReplaceLabels(address, names));
            && r.Some?
            && (Has(r.value, a, l) <==> if a == TrimSpace(address) then l in LabelSet(names) else Has(t, a, l))
            && (a in r.value.members <==> if a == TrimSpace(address) then LabelSet(names) != {} else a in t.members)
            && (l in r.value.labels <==> l in t.labels || l in LabelSet(names))
  {
    StatementsApply(t, ReplaceLabels(address, names));
    hide LabelSet, TrimSpace, Statements, ExecuteAll;
  }

  /** The statements of an addition give exactly the listed members the label, and create what is
      missing. */
  lemma AddAddsExactly(t: Tables, name: string, addresses: seq<string>, a: string, l: string)
    requires TrimSpace(name) != [] && addresses != []
    ensures var r := Transact(t, AddMembers(name, addresses));
            && r.Some?
            && (Has(r.value, a, l) <==> Has(t, a, l) || (a in LabelSet(addresses) && l == TrimSpace(name)))
            && (a in r.value.members <==> a in t.members || a in LabelSet(addresses))
            && (l in r.value.labels <==> l in t.labels || l == TrimSpace(name))
  {
    StatementsApply(t, AddMembers(name, addresses));
    hide LabelSet, TrimSpace, Statements, ExecuteAll;
  }

  /** Adding one member and removing it again takes back just that link, and the member too once
      it has no label left. */
  lemma RemoveUndoesAdd(t: Tables, name: string, address: string, a: string, l: string)
    requires TrimSpace(name) != [] && TrimSpace(address) != []
    ensures var added := Transact(t, AddMembers(name, [address]));
            && added.Some?
            && var removed := Transact(added.value, RemoveMember(name, address));
               && removed.Some?
               && (Has(removed.value, a, l) <==> Has(t, a, l) && !(a == TrimSpace(address) && l == TrimSpace(name)))
               && (TrimSpace(address) in removed.value.members <==>
                     exists k :: k in removed.value.links && k.0 == TrimSpace(address))
               && (a != TrimSpace(address) ==> (a in removed.value.members <==> a in t.members))
  {
    StatementsApply(t, AddMembers(name, [address]));
    StatementsApply(Apply(t, AddMembers(name, [address])), RemoveMember(name, address));
    assert LabelSet([address]) == {TrimSpace(address)};
    hide LabelSet, TrimSpace, Statements, ExecuteAll;
  }

  /** Creating a label adds that label, trimmed, and changes nothing else. */
  lemma CreateAddsALabel(t: Tables, name: string)
    requires TrimSpace(name) != []
    ensures Transact(t, CreateLabel(name)) == Some(Tables(t.members, t.labels + {TrimSpace(name)}, t.links))
  {
    ExecuteOne(t, PutLabel(TrimSpace(name)));
    hide TrimSpace, ExecuteAll;
  }

  /** Operations reach the database unless a name they need is blank. */
  lemma BlankNamesAreRefused(x: string, y: string, list: seq<string>)
    ensures Accepted(CreateLabel(x)) == Accepted(DeleteLabel(x)) == Accepted(DeleteMember(x))
         == Accepted(AddMembers(x, list)) == Accepted(ReplaceLabels(x, list)) == !AllSpace(x)
    ensures Accepted(RemoveMember(x, y)) == (!AllSpace(x) && !AllSpace(y))
  {
    BlankIff(x);
    BlankIff(y);
    hide TrimSpace;
  }

  /** A list of names stands for those with anything in them, without the white space around. */
  lemma LabelSetMeans(names: seq<string>, l: string)
    ensures l in LabelSet(names) <==> l != [] && Trimmed(l) && exists n :: n in names && Padded(n, l)
  {
    if l in LabelSet(names) {
      var n :| n in names && TrimSpace(n) != [] && l == TrimSpace(n);
      TrimSpaceIff(n, l);
    }
    if l != [] && Trimmed(l) {
      if n :| n in names && Padded(n, l) {
        TrimSpaceIff(n, l);
      }
    }
  }

  /** Deleting a member or a label takes its links along, and no others. */
  lemma DeleteRemovesOwnLinks(t: Tables, x: string, a: string, l: string)
    requires TrimSpace(x) != []
    ensures var r := Transact(t, DeleteMember(x));
            r.Some? && (Has(r.value, a, l) <==> Has(t, a, l) && a != TrimSpace(x))
    ensures var r := Transact(t, DeleteLabel(x));
            r.Some? && (Has(r.value, a, l) <==> Has(t, a, l) && l != TrimSpace(x))
  {
    StatementsApply(t, DeleteMember(x));
    StatementsApply(t, DeleteLabel(x));
    hide TrimSpace, Statements, ExecuteAll;
  }

  function After(t: Tables, ops: seq<Op>): Tables
    decreases |ops|
  {
    if ops == [] then t else After(Apply(t, ops[0]), ops[1..])
  }

  /** Over any sequence of mutations no link dangles and every stored name is proper. */
  lemma {:induction false} TablesStayWellFormed(t: Tables, ops: seq<Op>)
    requires WellFormed(t)
    ensures WellFormed(After(t, ops))
    decreases |ops|
  {
    if ops != [] {
      WellFormedKept(t, ops[0]);
      hide Apply, WellFormed;
      TablesStayWellFormed(Apply(t, ops[0]), ops[1..]);
    }
  }
}

module Tagger {
  import opened Wrappers
  import opened Text
  import opened Sorting
  import opened Labels
  import opened TagStore

  type IP = nat
  type Network = nat

  /** Address parsing, left open: any functions will do. */
  datatype Net = Net(parseIP: string -> Option<IP>, parseCIDR: string -> Option<Network>, contains: (Network, IP) -> bool)

  datatype MemberLabels = MemberLabels(address: string, labels: seq<string>)
  datatype CidrLabels = CidrLabels(network: Network, labels: seq<string>)
  datatype Matchers = Matchers(exact: map<string, seq<string>>, cidrs: seq<CidrLabels>)

  /** The labels a client at `address` should get, read off the links. */
  ghost predicate Deserves(net: Net, links: set<Link>, address: string, name: string) {
    || ((address, name) in links && net.parseCIDR(address).None?)
    || (exists m :: (m, name) in links && Covers(net, m, address))
  }

  predicate Covers(net: Net, member: string, address: string) {
    && net.parseIP(address).Some? && net.parseCIDR(member).Some?
    && net.contains(net.parseCIDR(member).value, net.parseIP(address).value)
  }

  // ---- grouping rows ------------------------------------------------------------------------

  function LabelsFor(rows: seq<Link>, address: string): seq<string> {
    if rows == [] then []
    else
      var before := LabelsFor(rows[..|rows| - 1], address);
      var last := rows[|rows| - 1];
      if last.0 == address then before + [last.1] else before
  }

  lemma {:induction false} LabelsForMembers(rows: seq<Link>, address: string)
    ensures forall l :: l in LabelsFor(rows, address) <==> (address, l) in rows
  {
    if rows != [] {
      var init, last := rows[..|rows| - 1], rows[|rows| - 1];
      LabelsForMembers(init, address);
      assert rows == init + [last];
    }
  }

  /** All labels the rows give the address of a group, in order. */
  ghost predicate HasLabels(rows: seq<Link>, g: MemberLabels) {
    g.labels == LabelsFor(rows, g.address) && g.labels != []
  }

  /** One group per address that has rows, holding the labels of all its rows in order. */
  ghost predicate Groups(rows: seq<Link>, groups: seq<MemberLabels>) {
    && (forall i, j :: 0 <= i < j < |groups| ==> groups[i].address != groups[j].address)
    && (forall i :: 0 <= i < |groups| ==> HasLabels(rows, groups[i]))
    && (forall k :: k in rows ==> exists i :: 0 <= i < |groups| && groups[i].address == k.0)
  }

  /** The index sends each address to the position of its group. */
  ghost predicate Indexed(groups: seq<MemberLabels>, index: map<string, nat>) {
    && (forall a :: a in index ==> index[a] < |groups| && groups[index[a]].address == a)
    && (forall i :: 0 <= i < |groups| ==> groups[i].address in index && index[groups[i].address] == i)
  }

  ghost predicate Labelled(rows: seq<Link>, groups: seq<MemberLabels>, index: map<string, nat>) {
    && (forall i :: 0 <= i < |groups| ==> HasLabels(rows, groups[i]))
    && (forall a :: a !in index ==> LabelsFor(rows, a) == [])
    && (forall k :: k in rows ==> k.0 in index)
  }

  lemma LabelsForNext(rows: seq<Link>, k: Link, a: string)
    ensures LabelsFor(rows + [k], a) == if a == k.0 then LabelsFor(rows, a) + [k.1] else LabelsFor(rows, a)
  {
    assert (rows + [k])[..|rows|] == rows;
  }

  lemma AnotherLabel(rows: seq<Link>, k: Link, groups: seq<MemberLabels>, index: map<string, nat>)
    requires Indexed(groups, index) && Labelled(rows, groups, index) && k.0 in index
    ensures var i := index[k.0];
            var groups' := groups[i := groups[i].(labels := groups[i].labels + [k.1])];
            Indexed(groups', index) && Labelled(rows + [k], groups', index)
  {
    var i := index[k.0];
    var groups' := groups[i := groups[i].(labels := groups[i].labels + [k.1])];
    assert forall j :: 0 <= j < |groups| ==> groups'[j].address == groups[j].address;
    hide LabelsFor;
    forall j | 0 <= j < |groups'| ensures HasLabels(rows + [k], groups'[j]) {
      LabelsForNext(rows, k, groups[j].address);
      assert HasLabels(rows, groups[j]);
    }
    UnlistedStay(rows, k, index);
  }

  lemma UnlistedStay(rows: seq<Link>, k: Link, index: map<string, nat>)
    requires k.0 in index && (forall a :: a !in index ==> LabelsFor(rows, a) == [])
    ensures forall a :: a !in index ==> LabelsFor(rows + [k], a) == []
  {
    forall a | a !in index ensures LabelsFor(rows + [k], a) == [] {
      LabelsForNext(rows, k, a);
    }
  }

  lemma NewGroupIndexed(groups: seq<MemberLabels>, index: map<string, nat>, g: MemberLabels)
    requires Indexed(groups, index) && g.address !in index
    ensures Indexed(groups + [g], index[g.address := |groups|])
  {
    var groups', index' := groups + [g], index[g.address := |groups|];
    forall a | a in index' ensures index'[a] < |groups'| && groups'[index'[a]].address == a {
      if a != g.address {
        assert groups'[index[a]] == groups[index[a]];
      }
    }
    forall i | 0 <= i < |groups'| ensures groups'[i].address in index' && index'[groups'[i].address] == i {
      if i < |groups| {
        assert groups'[i] == groups[i] && groups[i].address != g.address;
      }
    }
  }

  lemma NewGroupLabelled(rows: seq<Link>, k: Link, groups: seq<MemberLabels>, index: map<string, nat>, i: nat)
    requires Indexed(groups, index) && Labelled(rows, groups, index) && k.0 !in index && i <= |groups|
    ensures HasLabels(rows + [k], (groups + [MemberLabels(k.0, [k.1])])[i])
  {
    hide LabelsFor;
    if i < |groups| {
      assert HasLabels(rows, groups[i]) && groups[i].address != k.0;
      LabelsForNext(rows, k, groups[i].address);
    } else {
      LabelsForNext(rows, k, k.0);
    }
  }

  lemma AnotherGroup(rows: seq<Link>, k: Link, groups: seq<MemberLabels>, index: map<string, nat>)
    requires Indexed(groups, index) && Labelled(rows, groups, index) && k.0 !in index
    ensures var groups' := groups + [MemberLabels(k.0, [k.1])];
            var index' := index[k.0 := |groups|];
            Indexed(groups', index') && Labelled(rows + [k], groups', index')
  {
    var groups', index' := groups + [MemberLabels(k.0, [k.1])], index[k.0 := |groups|];
    NewGroupIndexed(groups, index, MemberLabels(k.0, [k.1]));
    UnlistedStay(rows, k, index');
    forall i | 0 <= i < |groups'| ensures HasLabels(rows + [k], groups'[i]) {
      NewGroupLabelled(rows, k, groups, index, i);
    }
    hide HasLabels, Indexed, LabelsFor;
  }

  /** The loop over query rows with its index from address to position. */
  method GroupRows(rows: seq<Link>) returns (groups: seq<MemberLabels>)
    ensures Groups(rows, groups)
  {
    groups := [];
    var index: map<string, nat> := map[];
    for n := 0 to |rows|
      invariant Indexed(groups, index) && Labelled(rows[..n], groups, index)
    {
      var (address, name) := rows[n];
      assert rows[..n + 1] == rows[..n] + [rows[n]];
      if address in index {
        AnotherLabel(rows[..n], rows[n], groups, index);
        var i := index[address];
        groups := groups[i := groups[i].(labels := groups[i].labels + [name])];
        continue;
      }
      AnotherGroup(rows[..n], rows[n], groups, index);
      index := index[address := |groups|];
      groups := groups + [MemberLabels(address, [name])];
    }
    assert rows[..|rows|] == rows;
  }

  // ---- building the indexes -------------------------------------------------------------------

  ghost predicate SortedLabels(names: seq<string>, links: set<Link>, address: string) {
    && Ascending(names, StringOrder()) && NoDuplicates(names)
    && forall l :: l in names <==> (address, l) in links
  }

  /** The indexes say what the links say. */
  ghost predicate InSync(net: Net, links: set<Link>, m: Matchers) {
    && (forall a :: a in m.exact ==> net.parseCIDR(a).None? && SortedLabels(m.exact[a], links, a))
    && (forall a, l :: (a, l) in links && net.parseCIDR(a).None? ==> a in m.exact)
    && (forall i, l :: 0 <= i < |m.cidrs| && l in m.cidrs[i].labels ==>
          exists a :: (a, l) in links && net.parseCIDR(a) == Some(m.cidrs[i].network))
    && (forall a, l :: (a, l) in links && net.parseCIDR(a).Some? ==>
          exists i :: 0 <= i < |m.cidrs| && m.cidrs[i].network == net.parseCIDR(a).value && l in m.cidrs[i].labels)
  }

  ghost predicate Lists(rows: seq<Link>, links: set<Link>) {
    forall k :: k in rows <==> k in links
  }

  lemma GroupIsSortedLabels(rows: seq<Link>, links: set<Link>, g: MemberLabels)
    requires Lists(rows, links) && g.labels == LabelsFor(rows, g.address)
    requires forall a, l :: (a, l) in links ==> Proper(l)
    ensures SortedLabels(NormalizeLabels(g.labels), links, g.address)
    ensures g.labels != [] ==> NormalizeLabels(g.labels) != []
  {
    LabelsForMembers(rows, g.address);
    NormalizeLabelsIsTheSet(g.labels);
    forall l ensures l in LabelSet(g.labels) <==> (g.address, l) in links {
      if (g.address, l) in links {
        assert l in g.labels;
        TrimSpaceTrims(l);
      }
      if l in LabelSet(g.labels) {
        var x :| x in g.labels && TrimSpace(x) != [] && l == TrimSpace(x);
        assert (g.address, x) in links;
        TrimSpaceTrims(x);
      }
    }
    if g.labels != [] {
      assert g.labels[0] in g.labels;
      assert (g.address, g.labels[0]) in links;
    }
  }

  /** Part of the way through the groups: the indexes know exactly the first `n`. */
  ghost predicate Partial(net: Net, groups: seq<MemberLabels>, n: nat, m: Matchers)
    requires n <= |groups|
  {
    && (forall a :: a in m.exact ==> exists i :: 0 <= i < n && groups[i].address == a && net.parseCIDR(a).None?
                                              && m.exact[a] == NormalizeLabels(groups[i].labels))
    && (forall i :: 0 <= i < n && net.parseCIDR(groups[i].address).None? ==> groups[i].address in m.exact)
    && (forall c :: c in m.cidrs ==> exists i :: 0 <= i < n && net.parseCIDR(groups[i].address) == Some(c.network)
                                              && c.labels == NormalizeLabels(groups[i].labels))
    && (forall i :: 0 <= i < n && net.parseCIDR(groups[i].address).Some? ==>
          CidrLabels(net.parseCIDR(groups[i].address).value, NormalizeLabels(groups[i].labels)) in m.cidrs)
  }

  function AddMember(net: Net, m: Matchers, address: string, labels: seq<string>): Matchers {
    if net.parseCIDR(address).Some?
    then m.(cidrs := m.cidrs + [CidrLabels(net.parseCIDR(address).value, labels)])
    else m.(exact := m.exact[address := labels])
  }

  lemma PartialNext(net: Net, groups: seq<MemberLabels>, n: nat, m: Matchers)
    requires n < |groups| && Partial(net, groups, n, m)
    requires forall i :: 0 <= i < n ==> groups[i].address != groups[n].address
    ensures Partial(net, groups, n + 1, AddMember(net, m, groups[n].address, NormalizeLabels(groups[n].labels)))
  {
    hide NormalizeLabels;
  }

  method BuildMatchers(net: Net, groups: seq<MemberLabels>) returns (m: Matchers)
    requires forall i :: 0 <= i < |groups| ==> Proper(groups[i].address) && NormalizeLabels(groups[i].labels) != []
    requires forall i, j :: 0 <= i < j < |groups| ==> groups[i].address != groups[j].address
    ensures Partial(net, groups, |groups|, m)
  {
    m := Matchers(map[], []);
    for n := 0 to |groups|
      invariant Partial(net, groups, n, m)
    {
      PartialNext(net, groups, n, m);
      TrimSpaceTrims(groups[n].address);
      hide Partial, NormalizeLabels, TrimSpace;
      var address := TrimSpace(groups[n].address);
      var labels := Normalize(groups[n].labels);
      if address == [] || |labels| == 0 {
        continue;
      }
      var network := net.parseCIDR(address);
      if network.Some? {
        m := m.(cidrs := m.cidrs + [CidrLabels(network.value, labels)]);
        continue;
      }
      m := m.(exact := m.exact[address := labels]);
    }
  }

  lemma BuiltInSync(net: Net, links: set<Link>, rows: seq<Link>, groups: seq<MemberLabels>, m: Matchers)
    requires forall a, l :: (a, l) in links ==> Proper(a) && Proper(l)
    requires Lists(rows, links) && Groups(rows, groups) && Partial(net, groups, |groups|, m)
    ensures InSync(net, links, m)
  {
    hide NormalizeLabels, LabelsFor, SortedLabels, Proper;
    forall i | 0 <= i < |groups| ensures SortedLabels(NormalizeLabels(groups[i].labels), links, groups[i].address) {
      GroupIsSortedLabels(rows, links, groups[i]);
    }
    forall a, l | (a, l) in links
      ensures exists i :: 0 <= i < |groups| && groups[i].address == a && l in NormalizeLabels(groups[i].labels)
    {
      assert (a, l) in rows;
      var i :| 0 <= i < |groups| && groups[i].address == (a, l).0;
      InGroup(links, groups[i], l);
    }
    forall i, l | 0 <= i < |m.cidrs| && l in m.cidrs[i].labels
      ensures exists a :: (a, l) in links && net.parseCIDR(a) == Some(m.cidrs[i].network)
    {
      var c := m.cidrs[i];
      assert c in m.cidrs;
      var j :| 0 <= j < |groups| && net.parseCIDR(groups[j].address) == Some(c.network) && c.labels == NormalizeLabels(groups[j].labels);
      InGroup(links, groups[j], l);
      assert (groups[j].address, l) in links;
    }
  }

  lemma InGroup(links: set<Link>, g: MemberLabels, l: string)
    requires SortedLabels(NormalizeLabels(g.labels), links, g.address)
    ensures l in NormalizeLabels(g.labels) <==> (g.address, l) in links
  {
  }

  // ---- looking up -----------------------------------------------------------------------------

  /** The labels of a client: exactly those it deserves, sorted, each once. */
  method Lookup(net: Net, m: Matchers, ghost links: set<Link>, address: string) returns (names: seq<string>)
    requires InSync(net, links, m)
    requires forall a, l :: (a, l) in links ==> Proper(l)
    ensures Ascending(names, StringOrder()) && NoDuplicates(names)
    ensures forall l :: l in names <==> Deserves(net, links, address, l)
  {
    var ip := net.parseIP(address);
    names := if address in m.exact then m.exact[address] else [];
    if ip.None? {
      return;
    }
    for i := 0 to |m.cidrs|
      invariant forall l :: l in names <==> FoundBy(net, m, address, i, l)
    {
      ghost var before := names;
      if net.contains(m.cidrs[i].network, ip.value) {
        names := AddMissing(names, m.cidrs[i].labels);
      }
      forall l ensures l in names <==> FoundBy(net, m, address, i + 1, l) {
        assert l in before <==> FoundBy(net, m, address, i, l);
        FoundByNext(net, m, address, i, l);
      }
    }
    forall l ensures FoundBy(net, m, address, |m.cidrs|, l) <==> Deserves(net, links, address, l) {
      FoundIsDeserved(net, links, m, address, l);
    }
    NormalizeLabelsIsTheSet(names);
    AllProper(net, links, address, names);
    hide NormalizeLabels, LabelSet;
    names := Normalize(names);
  }

  method AddMissing(names: seq<string>, more: seq<string>) returns (all: seq<string>)
    ensures forall l :: l in all <==> l in names || l in more
  {
    all := names;
    for j := 0 to |more|
      invariant forall l :: l in all <==> l in names || l in more[..j]
    {
      assert more[..j + 1] == more[..j] + [more[j]];
      if more[j] in all {
        continue;
      }
      all := all + [more[j]];
    }
    assert more[..|more|] == more;
  }

  ghost predicate Gives(net: Net, m: Matchers, address: string, i: nat, name: string)
    requires i < |m.cidrs|
  {
    && net.parseIP(address).Some? && net.contains(m.cidrs[i].network, net.parseIP(address).value)
    && name in m.cidrs[i].labels
  }

  /** Found in the exact index or in one of the first `n` networks. */
  ghost predicate FoundBy(net: Net, m: Matchers, address: string, n: nat, name: string)
    requires n <= |m.cidrs|
  {
    || (address in m.exact && name in m.exact[address])
    || (exists i :: 0 <= i < n && Gives(net, m, address, i, name))
  }

  lemma FoundByNext(net: Net, m: Matchers, address: string, n: nat, name: string)
    requires n < |m.cidrs|
    ensures FoundBy(net, m, address, n + 1, name) <==> FoundBy(net, m, address, n, name) || Gives(net, m, address, n, name)
  {
    hide Gives;
  }

  lemma GivenIsDeserved(net: Net, links: set<Link>, m: Matchers, address: string, i: nat, l: string)
    requires InSync(net, links, m) && i < |m.cidrs| && Gives(net, m, address, i, l)
    ensures Deserves(net, links, address, l)
  {
    hide SortedLabels;
    var a :| (a, l) in links && net.parseCIDR(a) == Some(m.cidrs[i].network);
    assert Covers(net, a, address);
  }

  lemma CoveredIsGiven(net: Net, links: set<Link>, m: Matchers, a: string, address: string, l: string)
    requires InSync(net, links, m) && (a, l) in links && Covers(net, a, address)
    ensures exists i :: 0 <= i < |m.cidrs| && Gives(net, m, address, i, l)
  {
    hide SortedLabels;
    var i :| 0 <= i < |m.cidrs| && m.cidrs[i].network == net.parseCIDR(a).value && l in m.cidrs[i].labels;
    assert Gives(net, m, address, i, l);
  }

  lemma ExactIsLinked(net: Net, links: set<Link>, m: Matchers, address: string, l: string)
    requires InSync(net, links, m)
    ensures (address in m.exact && l in m.exact[address]) <==> ((address, l) in links && net.parseCIDR(address).None?)
  {
    hide Ascending, NoDuplicates;
  }

  lemma FoundIsDeserved(net: Net, links: set<Link>, m: Matchers, address: string, l: string)
    requires InSync(net, links, m)
    ensures FoundBy(net, m, address, |m.cidrs|, l) <==> Deserves(net, links, address, l)
  {
    hide InSync, Gives, Covers;
    ExactIsLinked(net, links, m, address, l);
    if exists i :: 0 <= i < |m.cidrs| && Gives(net, m, address, i, l) {
      var i :| 0 <= i < |m.cidrs| && Gives(net, m, address, i, l);
      GivenIsDeserved(net, links, m, address, i, l);
    }
    if exists a :: (a, l) in links && Covers(net, a, address) {
      var a :| (a, l) in links && Covers(net, a, address);
      CoveredIsGiven(net, links, m, a, address, l);
    }
  }

  lemma AllProper(net: Net, links: set<Link>, address: string, names: seq<string>)
    requires forall a, l :: (a, l) in links ==> Proper(l)
    requires forall l :: l in names <==> Deserves(net, links, address, l)
    ensures forall l :: l in LabelSet(names) <==> l in names
  {
    forall l | l in names ensures TrimSpace(l) == l && l != [] {
      TrimSpaceTrims(l);
      assert Deserves(net, links, address, l);
      assert Proper(l);
    }
  }

  lemma {:induction false} RefusedForGood(t: Tables, stmts: seq<Stmt>, i: nat)
    requires i <= |stmts| && ExecuteAll(t, stmts[..i]).None?
    ensures ExecuteAll(t, stmts).None?
    decreases |stmts| - i
  {
    if i == |stmts| {
      assert stmts[..i] == stmts;
    } else {
      ExecuteNext(t, stmts[..i], stmts[i]);
      assert stmts[..i] + [stmts[i]] == stmts[..i + 1];
      RefusedForGood(t, stmts, i + 1);
    }
  }

  // ---- the tagger object ----------------------------------------------------------------------

  class TaggerService {
    const net: Net
    var tables: Tables
    var matchers: Matchers

    constructor (net: Net)
      ensures tables == Tables({}, {}, {}) && this.net == net && Valid() && Fresh()
    {
      this.net := net;
      tables := Tables({}, {}, {});
      matchers := Matchers(map[], []);
    }

    ghost predicate Valid()
      reads this
    {
      WellFormed(tables)
    }

    /** The published indexes match the tables. */
    ghost predicate Fresh()
      reads this
    {
      InSync(net, tables.links, matchers)
    }

    method AllRows() returns (rows: seq<Link>)
      ensures Lists(rows, tables.links)
    {
      rows := [];
      var left := tables.links;
      while left != {}
        invariant left <= tables.links && forall k :: k in rows <==> k in tables.links - left
        decreases left
      {
        var k :| k in left;
        rows, left := rows + [k], left - {k};
      }
    }

    method RefreshMatchers(readFails: bool) returns (ok: bool)
      requires Valid()
      modifies this`matchers
      ensures ok == !readFails
      ensures if ok then Fresh() else matchers == old(matchers)
    {
      if readFails {
        return false;
      }
      var rows := AllRows();
      var groups := GroupRows(rows);
      forall i | 0 <= i < |groups| ensures Proper(groups[i].address) && NormalizeLabels(groups[i].labels) != [] {
        GroupIsSortedLabels(rows, tables.links, groups[i]);
        LabelsForMembers(rows, groups[i].address);
        assert groups[i].labels[0] in groups[i].labels;
        assert (groups[i].address, groups[i].labels[0]) in tables.links;
      }
      matchers := BuildMatchers(net, groups);
      BuiltInSync(net, tables.links, rows, groups, matchers);
      return true;
    }

    /** Build the statements of an operation. */
    method Build(op: Op) returns (stmts: seq<Stmt>)
      ensures stmts == Statements(op)
    {
      match op
      case CreateLabel(name) => stmts := [PutLabel(TrimSpace(name))];
      case AddMembers(name, addresses) => stmts := BuildAdd(name, addresses);
      case ReplaceLabels(address, names) => stmts := BuildReplace(address, names);
      case RemoveMember(name, address) =>
        stmts := [DropLink(TrimSpace(address), TrimSpace(name)), DropMemberIfUnlinked(TrimSpace(address))];
      case DeleteMember(address) => stmts := [DropMember(TrimSpace(address))];
      case DeleteLabel(name) => stmts := [DropLabel(TrimSpace(name))];
    }

    /** One transaction, rolled back when a statement is refused or the database fails. */
    method RunTransaction(stmts: seq<Stmt>, fails: bool) returns (ok: bool)
      modifies this`tables
      ensures ok <==> stmts == [] || (!fails && ExecuteAll(old(tables), stmts).Some?)
      ensures tables == if ok then ExecuteAll(old(tables), stmts).value else old(tables)
    {
      if stmts == [] {
        return true;
      }
      var now := tables;
      for i := 0 to |stmts|
        invariant tables == old(tables) && ExecuteAll(tables, stmts[..i]) == Some(now)
      {
        ExecuteNext(tables, stmts[..i], stmts[i]);
        assert stmts[..i] + [stmts[i]] == stmts[..i + 1];
        var next := Execute(now, stmts[i]);
        if next.None? {
          RefusedForGood(tables, stmts, i + 1);
          return false;
        }
        now := next.value;
      }
      assert stmts[..|stmts|] == stmts;
      if fails {
        return false;
      }
      tables := now;
      return true;
    }

    /** Any mutation: validate, run the transaction, rebuild the indexes. Creating a label needs
        no rebuild, since it adds no link: indexes that match keep matching, stale ones stay. */
    method Mutate(op: Op, writeFails: bool, readFails: bool) returns (ok: bool)
      requires Valid()
      modifies this
      ensures Valid()
      ensures var written := Accepted(op) && (Statements(op) == [] || !writeFails);
              && tables == (if written then Apply(old(tables), op) else old(tables))
              && (ok <==> written && (op.CreateLabel? || !readFails))
              && (!ok || op.CreateLabel? ==> matchers == old(matchers))
      ensures ok && !op.CreateLabel? ==> Fresh()
      ensures op.CreateLabel? || !Accepted(op) ==> (old(Fresh()) <==> Fresh())
    {
      if !Accepted(op) {
        return false;
      }
      StatementsApply(tables, op);
      WellFormedKept(tables, op);
      var stmts := Build(op);
      var written := RunTransaction(stmts, writeFails);
      if !written {
        return false;
      }
      if op.CreateLabel? {
        return true;
      }
      ok := RefreshMatchers(readFails);
    }

    method LookupLabels(address: string) returns (names: seq<string>)
      requires Valid() && Fresh()
      ensures Ascending(names, StringOrder()) && NoDuplicates(names)
      ensures forall l :: l in names <==> Deserves(net, tables.links, address, l)
    {
      names := Lookup(net, matchers, tables.links, address);
    }
  }
}
