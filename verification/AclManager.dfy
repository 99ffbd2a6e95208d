/**
 The rule store and the decision procedures of src/acl/AclManager.cc.

 First the store as a value, `AclState`, with the specification of each operation and the
 properties of whole runs; then the class with its two indexes and the database table, whose
 methods are proved against that specification. Every lock region is one method body.
 */
module AclManagers {
  import opened AclRules
  import opened Wrappers

  const INT_MAX := 0x7FFF_FFFF

  // ---------------------------------------------------------------------------
  // The store as a value
  // ---------------------------------------------------------------------------

  datatype AclState = AclState(rules: map<int, RuleWords>, lastOID: int)

  ghost predicate Inv(s: AclState) {
    && -1 <= s.lastOID <= INT_MAX
    && (forall o :: o in s.rules ==> 0 <= o <= INT_MAX && WellFormed(s.rules[o]))
    && (forall o, p :: o in s.rules && p in s.rules && s.rules[o] == s.rules[p] ==> o == p)
  }

  /** Some row has these words. */
  predicate Stored(rules: map<int, RuleWords>, w: RuleWords) {
    exists o :: o in rules && rules[o] == w
  }

  /** The oid the next rule will try to take: the counter wraps at INT_MAX. */
  function NextOid(lastOID: int): int {
    if lastOID == INT_MAX then 0 else lastOID + 1
  }

  lemma NextOidCycles(lastOID: int)
    requires -1 <= lastOID <= 0x7FFFFFFF
    ensures NextOid(lastOID) == (lastOID + 1) % 0x80000000
  {
  }

  /** `dbOk` is whether the database carries out a statement that its primary key allows. */
  function Add(s: AclState, w: RuleWords, dbOk: bool): (AclState, int) {
    var oid := NextOid(s.lastOID);
    if Stored(s.rules, w) then (s.(lastOID := oid - 1), -1)
    else if !WellFormed(w) then (s.(lastOID := oid - 1), -2)
    else if !dbOk || oid in s.rules then (s.(lastOID := oid - 1), -3)
    else (AclState(s.rules[oid := w], oid), oid)
  }

  function Del(s: AclState, oid: int, dbOk: bool): (AclState, int) {
    if oid !in s.rules || !dbOk then (s, -1)
    else (s.(rules := s.rules - {oid}), 0)
  }

  /** Some stored rule allows the request. */
  ghost predicate Allowed(s: AclState, q: Request) {
    exists o :: o in s.rules && Permits(s.rules[o], q)
  }

  datatype Op = AddOp(w: RuleWords, addOk: bool) | DelOp(oid: int, delOk: bool)

  function Step(s: AclState, op: Op): (AclState, int) {
    match op
    case AddOp(w, ok) => Add(s, w, ok)
    case DelOp(oid, ok) => Del(s, oid, ok)
  }

  function Run(s: AclState, ops: seq<Op>): AclState
    decreases |ops|
  {
    if ops == [] then s else Run(Step(s, ops[0]).0, ops[1..])
  }

  lemma {:induction false} RunMore(s: AclState, ops: seq<Op>, op: Op)
    ensures Run(s, ops + [op]) == Step(Run(s, ops), op).0
    decreases |ops|
  {
    if ops == [] {
      assert ([] + [op])[1..] == [];
    } else {
      assert (ops + [op])[1..] == ops[1..] + [op];
      RunMore(Step(s, ops[0]).0, ops[1..], op);
    }
  }

  lemma AddKeepsInv(s: AclState, w: RuleWords, ok: bool)
    requires Inv(s)
    ensures Inv(Add(s, w, ok).0)
  {
  }

  lemma StepKeepsInv(s: AclState, op: Op)
    requires Inv(s)
    ensures Inv(Step(s, op).0)
  {
    match op
    case AddOp(w, ok) => AddKeepsInv(s, w, ok);
    case DelOp(oid, ok) =>
  }

  /** No run of adds and deletes, whatever fails in it and however often the counter wraps, breaks the store. */
  lemma {:induction false} RunKeepsInv(s: AclState, ops: seq<Op>)
    requires Inv(s)
    ensures Inv(Run(s, ops))
    decreases |ops|
  {
    if ops != [] {
      StepKeepsInv(s, ops[0]);
      RunKeepsInv(Step(s, ops[0]).0, ops[1..]);
    }
  }

  /** A successful add allows what was allowed before and what the new rule allows; a failed one changes no rule. */
  lemma AddExtendsDecisions(s: AclState, w: RuleWords, ok: bool, q: Request)
    requires Inv(s)
    ensures var (t, rc) := Add(s, w, ok);
            if rc >= 0 then Allowed(t, q) <==> Allowed(s, q) || Permits(w, q) else t.rules == s.rules
  {
    var (t, rc) := Add(s, w, ok);
    if rc >= 0 {
      if o :| o in s.rules && Permits(s.rules[o], q) {
        assert t.rules[o] == s.rules[o];
      }
      assert t.rules[rc] == w;
    }
  }

  /** Deleting the oid that an add returned gives back every rule, and so every decision, of before. */
  lemma AddDeleteRestores(s: AclState, w: RuleWords, ok: bool)
    requires Inv(s)
    requires Add(s, w, ok).1 >= 0
    ensures var (t, oid) := Add(s, w, ok);
            Del(t, oid, true).1 == 0 && Del(t, oid, true).0.rules == s.rules
  {
  }

  predicate Deletes(op: Op, oid: int) {
    op.DelOp? && op.oid == oid
  }

  predicate NeverDeletes(ops: seq<Op>, oid: int) {
    forall i :: 0 <= i < |ops| ==> !Deletes(ops[i], oid)
  }

  lemma StepBlocked(s: AclState, op: Op)
    requires NextOid(s.lastOID) in s.rules && -1 <= s.lastOID <= INT_MAX
    requires !Deletes(op, NextOid(s.lastOID))
    ensures var t := Step(s, op).0;
            NextOid(t.lastOID) == NextOid(s.lastOID) && NextOid(s.lastOID) in t.rules && t.rules.Items <= s.rules.Items
  {
    hide WellFormed, Stored;
  }

  /**
   After the counter has wrapped, an add meets the rule that already holds its oid, the primary
   key refuses the row and the counter steps back: from then on every add of every run fails,
   until that one rule is deleted.
   */
  lemma {:induction false} BlockedUntilDeleted(s: AclState, ops: seq<Op>)
    requires Inv(s)
    requires NextOid(s.lastOID) in s.rules
    requires NeverDeletes(ops, NextOid(s.lastOID))
    ensures var t := Run(s, ops);
            NextOid(t.lastOID) == NextOid(s.lastOID) && NextOid(s.lastOID) in t.rules && t.rules.Items <= s.rules.Items
    ensures forall w, ok :: Add(Run(s, ops), w, ok).1 < 0
    decreases |ops|
  {
    if ops != [] {
      var t := Step(s, ops[0]).0;
      StepKeepsInv(s, ops[0]);
      StepBlocked(s, ops[0]);
      hide Inv, Step;
      BlockedUntilDeleted(t, ops[1..]);
    }
  }

  // ---------------------------------------------------------------------------
  // Looking rules up by user word
  // ---------------------------------------------------------------------------

  /** An AclRule object; nothing assigns its fields once it is in the store. */
  class AclRule {
    const oid: int
    const words: RuleWords

    constructor (oid: int, user: Word, resource: Word, rights: Word)
      ensures this.oid == oid && words == RuleWords(user, resource, rights)
    {
      this.oid := oid;
      this.words := RuleWords(user, resource, rights);
    }
  }

  /** A multimap: the rules of each key in the order of insertion, no key without rules. */
  type RuleIndex = map<Word, seq<AclRule>>

  function EqualRange(rules: RuleIndex, key: Word): seq<AclRule> {
    if key in rules then rules[key] else []
  }

  function WordsOf(rs: seq<AclRule>): (ws: seq<RuleWords>)
    ensures |ws| == |rs|
    ensures forall i :: 0 <= i < |rs| ==> ws[i] == rs[i].words
  {
    seq(|rs|, i requires 0 <= i < |rs| => rs[i].words)
  }

  /** The rules under the given keys, in the order in which the loops meet them. */
  function Under(rules: RuleIndex, keys: seq<Word>): seq<RuleWords> {
    if keys == [] then [] else Under(rules, keys[..|keys| - 1]) + WordsOf(EqualRange(rules, keys[|keys| - 1]))
  }

  lemma UnderNone(rules: RuleIndex, keys: seq<Word>)
    ensures Under(rules, keys[..0]) == []
  {
  }

  lemma UnderNext(rules: RuleIndex, keys: seq<Word>, i: int)
    requires 0 <= i < |keys|
    ensures Under(rules, keys[..i + 1]) == Under(rules, keys[..i]) + WordsOf(EqualRange(rules, keys[i]))
  {
    assert keys[..i + 1][..i] == keys[..i];
  }

  ghost predicate AnyMatch(ws: seq<RuleWords>, m: Masks) {
    exists w :: w in ws && MaskTest(w, m)
  }

  /** Some rule that the index has under the user's three keys passes the mask test. */
  ghost predicate IndexGrants(rules: RuleIndex, q: Request) {
    AnyMatch(Under(rules, UserKeys(q.uid, q.gid)), RequestMasks(q.t, q.oid, q.ogid, q.op))
  }

  method MatchRules(userReq: Word, m: Masks, rules: RuleIndex) returns (auth: bool)
    ensures auth <==> AnyMatch(WordsOf(EqualRange(rules, userReq)), m)
  {
    auth := false;
    var index := EqualRange(rules, userReq);
    var it := 0;
    while it < |index|
      invariant 0 <= it <= |index|
      invariant !auth
      invariant forall j :: 0 <= j < it ==> !MaskTest(index[j].words, m)
    {
      auth := MaskTest(index[it].words, m);
      if auth {
        assert WordsOf(index)[it] == index[it].words;
        break;
      }
      it := it + 1;
    }
  }

  // ---------------------------------------------------------------------------
  // reverse_search: what a rule contributes
  // ---------------------------------------------------------------------------

  predicate HasRight(w: RuleWords, op: Operation) {
    w.rights * RightCode(op) == RightCode(op)
  }

  predicate ForAll(w: RuleWords, t: ObjectType) {
    w.resource * (TypeCode(t) + ALL_ID) == TypeCode(t) + ALL_ID
  }

  predicate ForGroup(w: RuleWords, t: ObjectType) {
    w.resource * (TypeCode(t) + GROUP_ID) == TypeCode(t) + GROUP_ID
  }

  predicate ForSingle(w: RuleWords, t: ObjectType) {
    w.resource * (TypeCode(t) + INDIVIDUAL_ID) == TypeCode(t) + INDIVIDUAL_ID
  }

  ghost predicate AnyForAll(ws: seq<RuleWords>, t: ObjectType, op: Operation) {
    exists w :: w in ws && HasRight(w, op) && ForAll(w, t)
  }

  function GroupIds(ws: seq<RuleWords>, t: ObjectType, op: Operation): seq<Int32> {
    if ws == [] then [] else
      var w := ws[|ws| - 1];
      GroupIds(ws[..|ws| - 1], t, op) + if HasRight(w, op) && ForGroup(w, t) then [IdOf(w.resource)] else []
  }

  function SingleIds(ws: seq<RuleWords>, t: ObjectType, op: Operation): seq<Int32> {
    if ws == [] then [] else
      var w := ws[|ws| - 1];
      SingleIds(ws[..|ws| - 1], t, op)
      + if HasRight(w, op) && !ForGroup(w, t) && ForSingle(w, t) then [IdOf(w.resource)] else []
  }

  lemma {:induction false} GroupIdsJoin(v: seq<RuleWords>, w: seq<RuleWords>, t: ObjectType, op: Operation)
    ensures GroupIds(v + w, t, op) == GroupIds(v, t, op) + GroupIds(w, t, op)
  {
    if w == [] {
      assert v + w == v;
    } else {
      assert (v + w)[..|v + w| - 1] == v + w[..|w| - 1];
      GroupIdsJoin(v, w[..|w| - 1], t, op);
    }
  }

  lemma {:induction false} SingleIdsJoin(v: seq<RuleWords>, w: seq<RuleWords>, t: ObjectType, op: Operation)
    ensures SingleIds(v + w, t, op) == SingleIds(v, t, op) + SingleIds(w, t, op)
  {
    if w == [] {
      assert v + w == v;
    } else {
      assert (v + w)[..|v + w| - 1] == v + w[..|w| - 1];
      SingleIdsJoin(v, w[..|w| - 1], t, op);
    }
  }

  lemma Joined(v: seq<RuleWords>, w: seq<RuleWords>, t: ObjectType, op: Operation)
    ensures AnyForAll(v + w, t, op) <==> AnyForAll(v, t, op) || AnyForAll(w, t, op)
    ensures SingleIds(v + w, t, op) == SingleIds(v, t, op) + SingleIds(w, t, op)
    ensures GroupIds(v + w, t, op) == GroupIds(v, t, op) + GroupIds(w, t, op)
  {
    assert forall x :: x in v + w <==> x in v || x in w;
    SingleIdsJoin(v, w, t, op);
    GroupIdsJoin(v, w, t, op);
  }

  lemma OfOne(w: RuleWords, t: ObjectType, op: Operation)
    ensures AnyForAll([w], t, op) <==> HasRight(w, op) && ForAll(w, t)
    ensures SingleIds([w], t, op)
         == if HasRight(w, op) && !ForGroup(w, t) && ForSingle(w, t) then [IdOf(w.resource)] else []
    ensures GroupIds([w], t, op) == if HasRight(w, op) && ForGroup(w, t) then [IdOf(w.resource)] else []
  {
    assert w in [w];
    assert [w][..0] == [];
  }

  lemma OfNone(t: ObjectType, op: Operation)
    ensures !AnyForAll([], t, op) && SingleIds([], t, op) == [] && GroupIds([], t, op) == []
  {
  }

  /** The inner loop of `reverse_search`: it stops at the first rule for all objects of the type. */
  method ScanRules(index: seq<AclRule>, t: ObjectType, op: Operation, oids0: seq<Int32>, gids0: seq<Int32>)
    returns (all: bool, oids: seq<Int32>, gids: seq<Int32>)
    ensures all <==> AnyForAll(WordsOf(index), t, op)
    ensures !all ==> oids == oids0 + SingleIds(WordsOf(index), t, op) && gids == gids0 + GroupIds(WordsOf(index), t, op)
  {
    hide HasRight, ForAll, ForGroup, ForSingle, AnyForAll, SingleIds, GroupIds;
    ghost var here := WordsOf(index);
    all, oids, gids := false, oids0, gids0;
    var it := 0;
    OfNone(t, op);
    while it < |index|
      invariant 0 <= it <= |index|
      invariant !all && !AnyForAll(here[..it], t, op)
      invariant oids == oids0 + SingleIds(here[..it], t, op) && gids == gids0 + GroupIds(here[..it], t, op)
    {
      var w := index[it].words;
      assert here[..it + 1] == here[..it] + [w] && here == (here[..it] + [w]) + here[it + 1..];
      Joined(here[..it], [w], t, op);
      Joined(here[..it] + [w], here[it + 1..], t, op);
      OfOne(w, t, op);
      if HasRight(w, op) {
        if ForAll(w, t) {
          return true, oids, gids;
        }
        if ForGroup(w, t) {
          gids := gids + [IdOf(w.resource)];
        } else if ForSingle(w, t) {
          oids := oids + [IdOf(w.resource)];
        }
      }
      it := it + 1;
    }
    assert here[..|index|] == here;
  }

  lemma {:induction false} GroupIdsHold(ws: seq<RuleWords>, t: ObjectType, op: Operation, id: Int32)
    ensures id in GroupIds(ws, t, op) <==>
            exists w :: w in ws && HasRight(w, op) && ForGroup(w, t) && IdOf(w.resource) == id
  {
    if ws != [] {
      GroupIdsHold(ws[..|ws| - 1], t, op, id);
      assert ws == ws[..|ws| - 1] + [ws[|ws| - 1]];
    }
  }

  lemma {:induction false} SingleIdsHold(ws: seq<RuleWords>, t: ObjectType, op: Operation, id: Int32)
    ensures id in SingleIds(ws, t, op) <==>
            exists w :: w in ws && HasRight(w, op) && !ForGroup(w, t) && ForSingle(w, t) && IdOf(w.resource) == id
  {
    if ws != [] {
      SingleIdsHold(ws[..|ws| - 1], t, op, id);
      assert ws == ws[..|ws| - 1] + [ws[|ws| - 1]];
    }
  }

  lemma SelectorTest(resource: Word, t: ObjectType, selector: int)
    requires 32 <= selector < 35
    ensures resource * (TypeCode(t) + {selector}) == TypeCode(t) + {selector} <==>
            t in Types(resource) && selector in resource
  {
    assert TypeBit(t) in TypeCode(t) + {selector} && selector in TypeCode(t) + {selector};
  }

  /** For a well-formed rule the masks of `reverse_search` and those of `authorize` say the same of every object. */
  lemma ReverseMatches(w: RuleWords, t: ObjectType, oid: Int32, gid: Int32, op: Operation)
    requires WellFormed(w)
    ensures MaskTest(w, RequestMasks(t, oid, gid, op)) <==>
            && HasRight(w, op)
            && (|| ForAll(w, t)
                || (ForGroup(w, t) && IdOf(w.resource) == gid)
                || (!ForGroup(w, t) && ForSingle(w, t) && IdOf(w.resource) == oid))
  {
    MaskTestMeaning(w, t, oid, gid, op);
    OneBit(w.rights, RightBit(op));
    SelectorTest(w.resource, t, 34);
    SelectorTest(w.resource, t, 33);
    SelectorTest(w.resource, t, 32);
    WhatBits(w.resource, oid);
    WhatBits(w.resource, gid);
    WhatBits(w.resource, IdOf(w.resource));
  }

  /**
   The lists of `reverse_search` answer every `authorize` question about the same rules: an
   object is granted exactly when all of its type are, or its oid or its group was listed.
   */
  lemma ReverseInvertsAuthorize(ws: seq<RuleWords>, t: ObjectType, op: Operation, oid: Int32, gid: Int32)
    requires forall w :: w in ws ==> WellFormed(w)
    ensures AnyMatch(ws, RequestMasks(t, oid, gid, op)) <==>
            AnyForAll(ws, t, op) || oid in SingleIds(ws, t, op) || gid in GroupIds(ws, t, op)
  {
    GroupIdsHold(ws, t, op, gid);
    SingleIdsHold(ws, t, op, oid);
    forall w | w in ws
      ensures MaskTest(w, RequestMasks(t, oid, gid, op)) <==>
              && HasRight(w, op)
              && (|| ForAll(w, t)
                  || (ForGroup(w, t) && IdOf(w.resource) == gid)
                  || (!ForGroup(w, t) && ForSingle(w, t) && IdOf(w.resource) == oid))
    {
      ReverseMatches(w, t, oid, gid, op);
    }
  }

  lemma ReverseAnswers(ws: seq<RuleWords>, t: ObjectType, op: Operation, all: bool, oids: seq<Int32>, gids: seq<Int32>)
    requires forall w :: w in ws ==> WellFormed(w)
    requires all <==> AnyForAll(ws, t, op)
    requires !all ==> oids == SingleIds(ws, t, op) && gids == GroupIds(ws, t, op)
    ensures forall oid: Int32, gid: Int32 ::
              AnyMatch(ws, RequestMasks(t, oid, gid, op)) <==> all || oid in oids || gid in gids
  {
    forall oid: Int32, gid: Int32
      ensures AnyMatch(ws, RequestMasks(t, oid, gid, op)) <==> all || oid in oids || gid in gids
    {
      ReverseInvertsAuthorize(ws, t, op, oid, gid);
    }
  }

  // ---------------------------------------------------------------------------
  // The two indexes and the table
  // ---------------------------------------------------------------------------

  function Insert(rules: RuleIndex, r: AclRule): RuleIndex {
    rules[r.words.user := EqualRange(rules, r.words.user) + [r]]
  }

  /** `erase(it)` for the iterator at position `i` under `key`. */
  function Erase(rules: RuleIndex, key: Word, i: int): RuleIndex
    requires key in rules && 0 <= i < |rules[key]|
  {
    var rest := rules[key][..i] + rules[key][i + 1..];
    if rest == [] then rules - {key} else rules[key := rest]
  }

  /** Every rule is filed under its own user word. */
  ghost predicate Filed(rules: RuleIndex) {
    forall k :: k in rules ==> rules[k] != [] && forall r :: r in rules[k] ==> r.words.user == k
  }

  ghost predicate Holds(rules: RuleIndex, w: RuleWords) {
    w in WordsOf(EqualRange(rules, w.user))
  }

  /** Every object of the index by user is the one that the index by oid has for its oid. */
  ghost predicate Linked(rules: RuleIndex, oids: map<int, AclRule>) {
    forall k, r :: k in rules && r in rules[k] ==> r.oid in oids && oids[r.oid] == r
  }

  /** Every object of the index by oid is filed under its oid and is in the index by user. */
  ghost predicate Reached(rules: RuleIndex, oids: map<int, AclRule>) {
    forall o :: o in oids ==> oids[o].oid == o && oids[o] in EqualRange(rules, oids[o].words.user)
  }

  function Rows(oids: map<int, AclRule>): map<int, RuleWords> {
    map o | o in oids :: oids[o].words
  }

  /**
   The indexes hold the very same objects, each once; every rule is filed under its own user
   word and its own oid; and the table holds exactly those oids with those words.
   */
  ghost predicate Consistent(rules: RuleIndex, oids: map<int, AclRule>, table: map<int, RuleWords>) {
    && Filed(rules)
    && Linked(rules, oids)
    && (forall k :: k in rules ==> Distinct(rules[k]))
    && Reached(rules, oids)
    && table == Rows(oids)
  }

  lemma {:induction false} UnderHolds(rules: RuleIndex, keys: seq<Word>, w: RuleWords)
    requires Filed(rules)
    ensures w in Under(rules, keys) <==> w.user in keys && Holds(rules, w)
  {
    if keys != [] {
      var init, k := keys[..|keys| - 1], keys[|keys| - 1];
      UnderHolds(rules, init, w);
      assert keys == init + [k];
      var ws := WordsOf(EqualRange(rules, k));
      if i :| 0 <= i < |ws| && ws[i] == w {
        assert EqualRange(rules, k)[i] in EqualRange(rules, k);
      }
    }
  }

  lemma InsertHolds(rules: RuleIndex, r: AclRule)
    requires Filed(rules)
    ensures Filed(Insert(rules, r))
    ensures forall w :: Holds(Insert(rules, r), w) <==> Holds(rules, w) || w == r.words
  {
    var bucket := EqualRange(rules, r.words.user);
    assert WordsOf(bucket + [r]) == WordsOf(bucket) + [r.words];
  }

  /** In consistent indexes, looking rules up by key meets exactly the rows with that user word. */
  lemma HoldsRow(rules: RuleIndex, oids: map<int, AclRule>, table: map<int, RuleWords>, w: RuleWords)
    requires Consistent(rules, oids, table)
    ensures Holds(rules, w) <==> Stored(table, w)
  {
    var bucket := EqualRange(rules, w.user);
    if i :| 0 <= i < |bucket| && WordsOf(bucket)[i] == w {
      assert bucket[i] in bucket;
      assert table[bucket[i].oid] == w;
    }
    if Stored(table, w) {
      var o :| o in table && table[o] == w;
      var i :| 0 <= i < |bucket| && bucket[i] == oids[o];
      assert WordsOf(bucket)[i] == w;
    }
  }

  /** Inserting an object puts it last in its bucket and touches no other bucket. */
  lemma InsertBuckets(rules: RuleIndex, r: AclRule)
    ensures EqualRange(Insert(rules, r), r.words.user) == EqualRange(rules, r.words.user) + [r]
    ensures forall k :: k != r.words.user ==> EqualRange(Insert(rules, r), k) == EqualRange(rules, k)
    ensures forall k :: k in Insert(rules, r) ==> k == r.words.user || k in rules
  {
  }

  lemma InsertLinked(rules: RuleIndex, oids: map<int, AclRule>, r: AclRule)
    requires Linked(rules, oids) && r.oid !in oids
    ensures Linked(Insert(rules, r), oids[r.oid := r])
  {
    var more, oids' := Insert(rules, r), oids[r.oid := r];
    InsertBuckets(rules, r);
    hide Insert;
    forall k, x: AclRule | k in more && x in more[k] ensures x.oid in oids' && oids'[x.oid] == x {
      assert x in EqualRange(more, k) && (x == r || x in EqualRange(rules, k));
    }
  }

  lemma InsertDistinct(rules: RuleIndex, oids: map<int, AclRule>, r: AclRule)
    requires Linked(rules, oids) && r.oid !in oids
    requires forall k :: k in rules ==> Distinct(rules[k])
    ensures forall k :: k in Insert(rules, r) ==> Distinct(Insert(rules, r)[k])
  {
    var more, bucket := Insert(rules, r), EqualRange(rules, r.words.user);
    InsertBuckets(rules, r);
    hide Insert;
    forall k | k in more ensures Distinct(more[k]) {
      assert more[k] == EqualRange(more, k);
      if k == r.words.user {
        assert r !in bucket && Distinct(bucket);
      } else {
        assert more[k] == rules[k];
      }
    }
  }

  lemma InsertReached(rules: RuleIndex, oids: map<int, AclRule>, r: AclRule)
    requires Reached(rules, oids) && r.oid !in oids
    ensures Reached(Insert(rules, r), oids[r.oid := r])
  {
  }

  lemma InsertedRows(oids: map<int, AclRule>, r: AclRule)
    ensures Rows(oids[r.oid := r]) == Rows(oids)[r.oid := r.words]
  {
    SameMap(Rows(oids[r.oid := r]), Rows(oids)[r.oid := r.words]);
  }

  lemma InsertConsistent(rules: RuleIndex, oids: map<int, AclRule>, table: map<int, RuleWords>, r: AclRule)
    requires Consistent(rules, oids, table)
    requires r.oid !in oids
    ensures Consistent(Insert(rules, r), oids[r.oid := r], table[r.oid := r.words])
  {
    InsertHolds(rules, r);
    InsertLinked(rules, oids, r);
    InsertDistinct(rules, oids, r);
    InsertReached(rules, oids, r);
    InsertedRows(oids, r);
    hide Filed, Linked, Reached, Distinct, Insert, Rows;
  }

  ghost predicate InIndex(rules: RuleIndex, r: AclRule) {
    r in EqualRange(rules, r.words.user)
  }

  predicate IsCopy(c: AclRule, r: AclRule) {
    c != r && c.oid == r.oid && c.words == r.words
  }

  /** Another object has the oid and the words of this one, and both are filed under their user word. */
  ghost predicate Copied(rules: RuleIndex, r: AclRule) {
    InIndex(rules, r) && exists c :: c in EqualRange(rules, r.words.user) && IsCopy(c, r)
  }

  /** Each of these objects is in the index, and has a copy there if its oid is among the rows. */
  ghost predicate Doubled(rules: RuleIndex, oids: map<int, AclRule>, rows: seq<int>) {
    && (forall o :: o in oids ==> oids[o].oid == o && InIndex(rules, oids[o]))
    && forall o :: o in oids && o in rows ==> Copied(rules, oids[o])
  }

  /** Every rule of the index by user is filed under its own word and has its row in the table. */
  ghost predicate FromTable(rules: RuleIndex, table: map<int, RuleWords>) {
    && Filed(rules)
    && forall k, r :: k in rules && r in rules[k] ==> r.oid in table && table[r.oid] == r.words
  }

  lemma InsertFromTable(rules: RuleIndex, table: map<int, RuleWords>, rule: AclRule)
    requires FromTable(rules, table) && rule.oid in table && table[rule.oid] == rule.words
    ensures FromTable(Insert(rules, rule), table)
  {
    var more := Insert(rules, rule);
    InsertBuckets(rules, rule);
    InsertHolds(rules, rule);
    hide Insert, Filed;
    forall k, r: AclRule | k in more && r in more[k] ensures r.oid in table && table[r.oid] == r.words {
      assert r in EqualRange(more, k) && (r == rule || r in EqualRange(rules, k));
    }
  }

  lemma DoubleNext(rules: RuleIndex, oids: map<int, AclRule>, rows: seq<int>, rule: AclRule)
    requires Doubled(rules, oids, rows)
    requires rule.oid in oids ==> oids[rule.oid] != rule && oids[rule.oid].words == rule.words
    ensures Doubled(Insert(rules, rule), oids, rows + [rule.oid])
  {
    var more := Insert(rules, rule);
    forall r | InIndex(rules, r) ensures InIndex(more, r) {}
    forall r | Copied(rules, r) ensures Copied(more, r) {}
    if rule.oid in oids {
      assert rule in EqualRange(more, rule.words.user) && IsCopy(rule, oids[rule.oid]);
    }
  }

  lemma AllDoubled(rules: RuleIndex, oids: map<int, AclRule>, rows: seq<int>, table: map<int, RuleWords>)
    requires Doubled(rules, oids, rows)
    requires forall o :: o in oids ==> o in table
    requires forall o :: o in rows <==> o in table
    ensures forall o :: o in oids ==> oids[o].oid == o && Copied(rules, oids[o])
  {
    forall o | o in oids ensures Copied(rules, oids[o]) {
      assert o in rows;
    }
  }

  /** Deleting the rule of an oid that has a copy, and no equal under another oid, leaves the copy without an oid. */
  lemma CopySurvives(e: Engine, oid: int)
    requires oid in e.oids && Copied(e.rules, e.oids[oid])
    requires forall o :: o in e.oids && o != oid ==> e.oids[o].words != e.oids[oid].words
    ensures Remove(e, oid, true).1 == 0 && Orphaned(Remove(e, oid, true).0, e.oids[oid].words)
  {
    var r := e.oids[oid];
    var w, bucket := r.words, EqualRange(e.rules, r.words.user);
    CopyHolds(e.rules, r);
    var i := FirstAt(bucket, w);
    var c :| c in bucket && IsCopy(c, r);
    var other := if bucket[i] == r then c else r;
    var j :| 0 <= j < |bucket| && bucket[j] == other;
    EntrySurvives(e.rules, w.user, i, j);
  }

  lemma RestOf(bucket: seq<AclRule>, i: int)
    requires 0 <= i < |bucket| && Distinct(bucket)
    ensures var rest := bucket[..i] + bucket[i + 1..];
            Distinct(rest) && forall x :: x in rest <==> x in bucket && x != bucket[i]
  {
    var rest := bucket[..i] + bucket[i + 1..];
    assert forall a :: 0 <= a < |rest| ==> rest[a] == bucket[if a < i then a else a + 1];
    forall x | x in bucket && x != bucket[i] ensures x in rest {
      var j :| 0 <= j < |bucket| && bucket[j] == x;
      assert rest[if j < i then j else j - 1] == x;
    }
  }

  /** Erasing one entry takes that object out of its bucket and touches no other bucket. */
  lemma EraseBuckets(rules: RuleIndex, key: Word, i: int)
    requires key in rules && 0 <= i < |rules[key]| && Distinct(rules[key])
    ensures var rest := EqualRange(Erase(rules, key, i), key);
            Distinct(rest) && forall x :: x in rest <==> x in rules[key] && x != rules[key][i]
    ensures forall k :: k != key ==> EqualRange(Erase(rules, key, i), k) == EqualRange(rules, k)
    ensures forall k :: k in Erase(rules, key, i) ==>
              k in rules && (k == key ==> EqualRange(Erase(rules, key, i), k) != [])
  {
    RestOf(rules[key], i);
  }

  lemma EraseFiled(rules: RuleIndex, key: Word, i: int)
    requires Filed(rules) && key in rules && 0 <= i < |rules[key]| && Distinct(rules[key])
    ensures Filed(Erase(rules, key, i))
  {
    var less := Erase(rules, key, i);
    EraseBuckets(rules, key, i);
    hide Erase, Distinct;
    forall k | k in less ensures less[k] != [] && forall r: AclRule :: r in less[k] ==> r.words.user == k {
      assert less[k] == EqualRange(less, k);
      assert k != key ==> less[k] == rules[k];
    }
  }

  lemma EraseLinked(rules: RuleIndex, oids: map<int, AclRule>, key: Word, i: int)
    requires Filed(rules) && Linked(rules, oids) && key in rules && 0 <= i < |rules[key]| && Distinct(rules[key])
    ensures Linked(Erase(rules, key, i), oids - {rules[key][i].oid})
  {
    var r, less := rules[key][i], Erase(rules, key, i);
    EraseBuckets(rules, key, i);
    hide Erase, Distinct;
    assert r in rules[key];
    forall k, x: AclRule | k in less && x in less[k] ensures x.oid in oids && x.oid != r.oid && oids[x.oid] == x {
      assert x in EqualRange(less, k) && x in EqualRange(rules, k);
      assert k == key || x.words.user != key;
    }
  }

  lemma EraseDistinct(rules: RuleIndex, key: Word, i: int)
    requires key in rules && 0 <= i < |rules[key]|
    requires forall k :: k in rules ==> Distinct(rules[k])
    ensures forall k :: k in Erase(rules, key, i) ==> Distinct(Erase(rules, key, i)[k])
  {
    var less := Erase(rules, key, i);
    EraseBuckets(rules, key, i);
    hide Erase, Distinct;
    forall k | k in less ensures Distinct(less[k]) {
      assert less[k] == EqualRange(less, k);
      assert k != key ==> less[k] == rules[k];
    }
  }

  lemma EraseReached(rules: RuleIndex, oids: map<int, AclRule>, key: Word, i: int)
    requires Reached(rules, oids) && key in rules && 0 <= i < |rules[key]| && Distinct(rules[key])
    ensures Reached(Erase(rules, key, i), oids - {rules[key][i].oid})
  {
    var r, less := rules[key][i], Erase(rules, key, i);
    EraseBuckets(rules, key, i);
    hide Erase, Distinct;
    forall o | o in oids && o != r.oid ensures oids[o].oid == o && oids[o] in EqualRange(less, oids[o].words.user) {
      assert oids[o] in EqualRange(rules, oids[o].words.user) && oids[o] != r;
    }
  }

  lemma EraseConsistent(rules: RuleIndex, oids: map<int, AclRule>, key: Word, i: int)
    requires Consistent(rules, oids, Rows(oids))
    requires key in rules && 0 <= i < |rules[key]|
    ensures var less := oids - {rules[key][i].oid}; Consistent(Erase(rules, key, i), less, Rows(less))
  {
    EraseFiled(rules, key, i);
    EraseLinked(rules, oids, key, i);
    EraseDistinct(rules, key, i);
    EraseReached(rules, oids, key, i);
    hide Filed, Linked, Reached, Distinct, Erase, Rows;
  }

  // ---------------------------------------------------------------------------
  // What add_rule and del_rule do to the indexes and the table
  // ---------------------------------------------------------------------------

  /** The two indexes, the table and the counter, in whatever state they are. */
  datatype Engine = Engine(rules: RuleIndex, oids: map<int, AclRule>, table: map<int, RuleWords>, lastOID: int)

  function StoreOf(e: Engine): AclState {
    AclState(Rows(e.oids), e.lastOID)
  }

  /** The indexes agree with each other, and the table has at least what they have. */
  ghost predicate Agrees(e: Engine) {
    && Consistent(e.rules, e.oids, Rows(e.oids))
    && Inv(StoreOf(e))
    && forall o :: o in e.oids ==> o in e.table && e.table[o] == e.oids[o].words
  }

  /** The checks and insertions of `add_rule` for an object with this oid; a map keeps a key that is there. */
  ghost function TryEnter(e: Engine, rule: AclRule, dbOk: bool): (Engine, int) {
    if Holds(e.rules, rule.words) then (e, -1)
    else if !WellFormed(rule.words) then (e, -2)
    else if !dbOk || rule.oid in e.table then (e, -3)
    else
      var oids := if rule.oid in e.oids then e.oids else e.oids[rule.oid := rule];
      (Engine(Insert(e.rules, rule), oids, e.table[rule.oid := rule.words], e.lastOID), e.lastOID)
  }

  /** `add_rule`: the counter goes on, and back again if the rule is refused. */
  ghost function Enter(e: Engine, rule: AclRule, dbOk: bool): (Engine, int) {
    var (f, rc) := TryEnter(e.(lastOID := NextOid(e.lastOID)), rule, dbOk);
    (if rc < 0 then f.(lastOID := f.lastOID - 1) else f, rc)
  }

  /** What the codes of a refused add mean; one that is accepted returns the next oid. */
  lemma RefusalCodes(e: Engine, rule: AclRule, dbOk: bool)
    requires rule.oid == NextOid(e.lastOID) >= 0
    ensures var (f, rc) := Enter(e, rule, dbOk);
            && (rc == -1 <==> Holds(e.rules, rule.words))
            && (rc == -2 <==> !Holds(e.rules, rule.words) && !WellFormed(rule.words))
            && (rc == -3 <==> !Holds(e.rules, rule.words) && WellFormed(rule.words) && (!dbOk || rule.oid in e.table))
            && (rc < 0 <==> rc != rule.oid)
            && (rc < 0 ==> NextOid(f.lastOID) == NextOid(e.lastOID) && f.(lastOID := e.lastOID) == e)
  {
    hide Holds, WellFormed;
  }

  /** The position of the first rule with these words. */
  function FirstAt(bucket: seq<AclRule>, w: RuleWords): (i: nat)
    requires w in WordsOf(bucket)
    ensures i < |bucket| && bucket[i].words == w && forall j :: 0 <= j < i ==> bucket[j].words != w
  {
    if bucket[0].words == w then 0 else
      WordsOfTail(bucket);
      1 + FirstAt(bucket[1..], w)
  }

  lemma WordsOfTail(bucket: seq<AclRule>)
    requires bucket != []
    ensures WordsOf(bucket) == [bucket[0].words] + WordsOf(bucket[1..])
  {
  }

  /** `del_rule`: looked up by oid and again, by value, in the index by user, where the first one is erased. */
  ghost function Remove(e: Engine, oid: int, dbOk: bool): (Engine, int) {
    if oid !in e.oids || !Holds(e.rules, e.oids[oid].words) || !dbOk then (e, -1)
    else
      var w := e.oids[oid].words;
      var rules := Erase(e.rules, w.user, FirstAt(EqualRange(e.rules, w.user), w));
      (Engine(rules, e.oids - {oid}, e.table - {oid}, e.lastOID), 0)
  }

  /** On indexes that agree, adding is what the store says, except that unindexed rows take their oids too. */
  lemma EnterMeaning(e: Engine, rule: AclRule, dbOk: bool)
    requires Agrees(e) && rule.oid == NextOid(e.lastOID)
    ensures var (f, rc) := Enter(e, rule, dbOk);
            Agrees(f) && (StoreOf(f), rc) == Add(StoreOf(e), rule.words, dbOk && rule.oid !in e.table)
  {
    EnterIsAdd(e, rule, dbOk);
    EnterConsistent(e, rule, dbOk);
    EnterCovered(e, rule, dbOk);
    AddKeepsInv(StoreOf(e), rule.words, dbOk && rule.oid !in e.table);
    hide Enter, Add, Inv, Consistent, StoreOf;
  }

  lemma EnterIsAdd(e: Engine, rule: AclRule, dbOk: bool)
    requires Agrees(e) && rule.oid == NextOid(e.lastOID)
    ensures var (f, rc) := Enter(e, rule, dbOk);
            (StoreOf(f), rc) == Add(StoreOf(e), rule.words, dbOk && rule.oid !in e.table)
  {
    hide WellFormed, Stored, Holds, Agrees, Insert, Rows;
    KnownBefore(e, rule);
    InsertedRows(e.oids, rule);
  }

  /** What the checks of an add find out about the store. */
  lemma KnownBefore(e: Engine, rule: AclRule)
    requires Agrees(e) && rule.oid == NextOid(e.lastOID)
    ensures Holds(e.rules, rule.words) <==> Stored(Rows(e.oids), rule.words)
    ensures rule.oid >= 0 && (rule.oid in e.oids ==> rule.oid in e.table)
    ensures rule.oid in Rows(e.oids) <==> rule.oid in e.oids
  {
    HoldsRow(e.rules, e.oids, Rows(e.oids), rule.words);
  }

  lemma EnterConsistent(e: Engine, rule: AclRule, dbOk: bool)
    requires Agrees(e) && rule.oid == NextOid(e.lastOID)
    ensures var f := Enter(e, rule, dbOk).0; Consistent(f.rules, f.oids, Rows(f.oids))
  {
    if rule.oid !in e.table {
      InsertConsistent(e.rules, e.oids, Rows(e.oids), rule);
      InsertedRows(e.oids, rule);
    }
    hide WellFormed, Holds, Inv, Insert, Consistent, Rows;
  }

  lemma EnterCovered(e: Engine, rule: AclRule, dbOk: bool)
    requires Agrees(e) && rule.oid == NextOid(e.lastOID)
    ensures var f := Enter(e, rule, dbOk).0; forall o :: o in f.oids ==> o in f.table && f.table[o] == f.oids[o].words
  {
    hide WellFormed, Holds, Inv, Insert, Consistent;
  }

  lemma RemovedRows(oids: map<int, AclRule>, oid: int)
    ensures Rows(oids - {oid}) == Rows(oids) - {oid}
  {
    SameMap(Rows(oids - {oid}), Rows(oids) - {oid});
  }

  /**
   On indexes that agree, deleting is what the store says: the search by value meets the very
   object of the oid index, and "indexed by oid, but not by user" is never the answer.
   */
  lemma RemoveMeaning(e: Engine, oid: int, dbOk: bool)
    requires Agrees(e)
    ensures var (f, rc) := Remove(e, oid, dbOk);
            Agrees(f) && (StoreOf(f), rc) == Del(StoreOf(e), oid, dbOk)
    ensures oid in e.oids ==>
              var w := e.oids[oid].words;
              Holds(e.rules, w) && EqualRange(e.rules, w.user)[FirstAt(EqualRange(e.rules, w.user), w)] == e.oids[oid]
  {
    hide WellFormed;
    StepKeepsInv(StoreOf(e), DelOp(oid, dbOk));
    if oid in e.oids {
      var w := e.oids[oid].words;
      SearchMeets(e, oid);
      EraseConsistent(e.rules, e.oids, w.user, FirstAt(EqualRange(e.rules, w.user), w));
      RemovedRows(e.oids, oid);
    }
    hide Consistent, Holds, Inv, Erase, FirstAt;
  }

  lemma SearchMeets(e: Engine, oid: int)
    requires Consistent(e.rules, e.oids, Rows(e.oids)) && Inv(StoreOf(e)) && oid in e.oids
    ensures var w := e.oids[oid].words;
            Holds(e.rules, w) && EqualRange(e.rules, w.user)[FirstAt(EqualRange(e.rules, w.user), w)] == e.oids[oid]
  {
    hide WellFormed;
    var w := e.oids[oid].words;
    var bucket := EqualRange(e.rules, w.user);
    CopyHolds(e.rules, e.oids[oid]);
    var found := bucket[FirstAt(bucket, w)];
    assert found in e.rules[w.user];
    assert StoreOf(e).rules[found.oid] == StoreOf(e).rules[oid];
  }

  // ---------------------------------------------------------------------------
  // A rule without an oid
  // ---------------------------------------------------------------------------

  /** Some rule with these words is in the index by user, but no oid leads to such a rule. */
  ghost predicate Orphaned(e: Engine, w: RuleWords) {
    Holds(e.rules, w) && forall o :: o in e.oids ==> e.oids[o].words != w
  }

  datatype EngineOp = EnterOp(rule: AclRule, enterOk: bool) | RemoveOp(oid: int, removeOk: bool)

  ghost function EngineStep(e: Engine, op: EngineOp): Engine {
    match op
    case EnterOp(rule, ok) => Enter(e, rule, ok).0
    case RemoveOp(oid, ok) => Remove(e, oid, ok).0
  }

  ghost function RunEngine(e: Engine, ops: seq<EngineOp>): Engine {
    if ops == [] then e else EngineStep(RunEngine(e, ops[..|ops| - 1]), ops[|ops| - 1])
  }

  function StoreOp(op: EngineOp): Op {
    match op
    case EnterOp(rule, ok) => AddOp(rule.words, ok)
    case RemoveOp(oid, ok) => DelOp(oid, ok)
  }

  function StoreOps(ops: seq<EngineOp>): seq<Op> {
    if ops == [] then [] else StoreOps(ops[..|ops| - 1]) + [StoreOp(ops[|ops| - 1])]
  }

  /** Every object that a run adds comes with the oid that `add_rule` gives it. */
  ghost predicate Numbered(e: Engine, ops: seq<EngineOp>) {
    forall i :: 0 <= i < |ops| && ops[i].EnterOp? ==> ops[i].rule.oid == NextOid(RunEngine(e, ops[..i]).lastOID)
  }

  lemma EngineStepMeaning(e: Engine, op: EngineOp)
    requires Agrees(e) && e.table == StoreOf(e).rules
    requires op.EnterOp? ==> op.rule.oid == NextOid(e.lastOID)
    ensures var f := EngineStep(e, op);
            Agrees(f) && f.table == StoreOf(f).rules && StoreOf(f) == Step(StoreOf(e), StoreOp(op)).0
  {
    hide Agrees, Enter, Remove, Add, Del, StoreOf;
    match op {
      case EnterOp(rule, ok) => AddMeaning(e, rule, ok);
      case RemoveOp(oid, ok) => DelMeaning(e, oid, ok);
    }
  }

  /**
   Every run from indexes and a table that agree keeps the same objects in both indexes and exactly
   their rows in the table, and ends where the store says.
   */
  lemma {:induction false} EngineRuns(e: Engine, ops: seq<EngineOp>)
    requires Agrees(e) && e.table == StoreOf(e).rules && Numbered(e, ops)
    ensures var f := RunEngine(e, ops);
            Agrees(f) && f.table == StoreOf(f).rules && StoreOf(f) == Run(StoreOf(e), StoreOps(ops))
  {
    hide Agrees, EngineStep, Step, StoreOf, StoreOp;
    if ops != [] {
      var init, op := ops[..|ops| - 1], ops[|ops| - 1];
      assert ops[|init|] == op && ops[..|init|] == init;
      NumberedInit(e, ops);
      EngineRuns(e, init);
      RunMore(StoreOf(e), StoreOps(init), StoreOp(op));
      EngineStepMeaning(RunEngine(e, init), op);
    }
  }

  lemma NumberedInit(e: Engine, ops: seq<EngineOp>)
    requires ops != [] && Numbered(e, ops)
    ensures Numbered(e, ops[..|ops| - 1])
  {
    hide RunEngine;
    var init := ops[..|ops| - 1];
    forall i | 0 <= i < |init| && init[i].EnterOp?
      ensures init[i].rule.oid == NextOid(RunEngine(e, init[..i]).lastOID)
    {
      assert init[..i] == ops[..i] && init[i] == ops[i];
    }
  }

  /** No sequence of adds and deletes gets rid of an orphaned rule, or gives it an oid. */
  lemma {:induction false} OrphanedForGood(e: Engine, ops: seq<EngineOp>, w: RuleWords)
    requires Orphaned(e, w)
    ensures Orphaned(RunEngine(e, ops), w)
  {
    if ops != [] {
      var before := RunEngine(e, ops[..|ops| - 1]);
      OrphanedForGood(e, ops[..|ops| - 1], w);
      hide Orphaned, Enter, Remove;
      match ops[|ops| - 1] {
        case EnterOp(rule, ok) => EnterKeepsOrphan(before, rule, ok, w);
        case RemoveOp(oid, ok) => RemoveKeepsOrphan(before, oid, ok, w);
      }
    }
  }

  /** Adding the rule again is refused as a duplicate; other rules do not matter. */
  lemma EnterKeepsOrphan(e: Engine, rule: AclRule, ok: bool, w: RuleWords)
    requires Orphaned(e, w)
    ensures Orphaned(Enter(e, rule, ok).0, w)
    ensures rule.words == w ==> Enter(e, rule, ok).1 == -1
  {
    hide WellFormed;
    var bucket := EqualRange(e.rules, w.user);
    if rule.words.user == w.user {
      assert WordsOf(bucket + [rule]) == WordsOf(bucket) + [rule.words];
    }
  }

  lemma RemoveKeepsOrphan(e: Engine, oid: int, ok: bool, w: RuleWords)
    requires Orphaned(e, w)
    ensures Orphaned(Remove(e, oid, ok).0, w)
  {
    if oid in e.oids && Holds(e.rules, e.oids[oid].words) {
      var v := e.oids[oid].words;
      OthersSurvive(e.rules, v, FirstAt(EqualRange(e.rules, v.user), v), w);
    }
  }

  lemma OthersSurvive(rules: RuleIndex, v: RuleWords, i: int, w: RuleWords)
    requires v.user in rules && 0 <= i < |rules[v.user]| && rules[v.user][i].words == v != w
    requires Holds(rules, w)
    ensures Holds(Erase(rules, v.user, i), w)
  {
    if w.user == v.user {
      var bucket := rules[w.user];
      var j :| 0 <= j < |bucket| && WordsOf(bucket)[j] == w;
      EntrySurvives(rules, w.user, i, j);
    }
  }

  /** Another entry of the bucket is still found, one place earlier if it stood behind the erased one. */
  lemma EntrySurvives(rules: RuleIndex, key: Word, i: int, j: int)
    requires key in rules && 0 <= i < |rules[key]| && 0 <= j < |rules[key]| && i != j && rules[key][j].words.user == key
    ensures Holds(Erase(rules, key, i), rules[key][j].words)
  {
    var bucket := rules[key];
    var rest, k := bucket[..i] + bucket[i + 1..], if j < i then j else j - 1;
    assert rest[k] == bucket[j];
    assert WordsOf(EqualRange(Erase(rules, key, i), key))[k] == bucket[j].words;
  }

  // ---------------------------------------------------------------------------
  // The manager
  // ---------------------------------------------------------------------------

  /** The `acl` table, whose oid column is its primary key, and the last oid kept in `pool_control`. */
  class SqlDb {
    var acl: map<int, RuleWords>
    var lastOid: int

    method InsertRow(oid: int, w: RuleWords, ok: bool) returns (rc: int)
      modifies this`acl
      ensures rc == 0 <==> ok && oid !in old(acl)
      ensures acl == if rc == 0 then old(acl)[oid := w] else old(acl)
    {
      rc := -1;
      if ok && oid !in acl {
        acl := acl[oid := w];
        rc := 0;
      }
    }

    method DropRow(oid: int, ok: bool) returns (rc: int)
      modifies this`acl
      ensures rc == 0 <==> ok
      ensures acl == if rc == 0 then old(acl) - {oid} else old(acl)
    {
      rc := -1;
      if ok {
        acl := acl - {oid};
        rc := 0;
      }
    }
  }

  /** The loop of `add_rule` that looks for an equal rule under the same user word. */
  method Duplicated(rules: RuleIndex, rule: AclRule) returns (found: bool)
    ensures found <==> Holds(rules, rule.words)
  {
    var index := EqualRange(rules, rule.words.user);
    var it := 0;
    found := false;
    while it < |index| && !found
      invariant 0 <= it <= |index|
      invariant found <==> rule.words in WordsOf(index)[..it]
    {
      found := index[it].words == rule.words;
      it := it + 1;
    }
    assert WordsOf(index)[..|index|] == WordsOf(index);
  }

  const DEFAULT_CREATE := RuleWords(
    GROUP_ID + {0},
    ALL_ID + TypeCode(VM) + TypeCode(NET) + TypeCode(IMAGE) + TypeCode(TEMPLATE),
    RightCode(CREATE))
  const DEFAULT_DEPLOY := RuleWords(GROUP_ID + {0}, ALL_ID + TypeCode(HOST), RightCode(MANAGE))

  /** The rules that the constructor indexes when the database has no last oid. */
  function Booted(acl: map<int, RuleWords>, okCreate: bool, okDeploy: bool): AclState {
    var s := if okCreate && 0 !in acl then AclState(map[0 := DEFAULT_CREATE], 0) else AclState(map[], -1);
    var oid := s.lastOID + 1;
    if okDeploy && oid !in acl then AclState(s.rules[oid := DEFAULT_DEPLOY], oid) else s
  }

  /** The two adds of the constructor, where the primary key also counts rows that are not indexed. */
  lemma DefaultsAdded(acl: map<int, RuleWords>, okCreate: bool, okDeploy: bool)
    ensures var (s, rc) := Add(AclState(map[], -1), DEFAULT_CREATE, okCreate && 0 !in acl);
            && (rc >= 0 <==> okCreate && 0 !in acl)
            && (rc >= 0 ==> rc == 0)
            && var acl' := if rc >= 0 then acl[rc := DEFAULT_CREATE] else acl;
               Add(s, DEFAULT_DEPLOY, okDeploy && NextOid(s.lastOID) !in acl').0 == Booted(acl, okCreate, okDeploy)
  {
    DefaultsWellFormed();
    var s := Add(AclState(map[], -1), DEFAULT_CREATE, okCreate && 0 !in acl).0;
    assert forall o :: o in s.rules ==> s.rules[o] == DEFAULT_CREATE;
  }

  lemma SameTable(before: map<int, RuleWords>, added: map<int, RuleWords>, after: map<int, RuleWords>)
    requires forall o :: o in after <==> o in before || o in added
    requires forall o :: o in added ==> o in after && after[o] == added[o]
    requires forall o :: o in before ==> o !in added
    ensures after == added <==> before == map[]
  {
    if o :| o in before {
      assert o in after && o !in added;
    } else {
      NoKeys(before);
      SameMap(after, added);
    }
  }

  class AclManager {
    const db: SqlDb
    var aclRules: RuleIndex
    var aclRulesOids: map<int, AclRule>
    var lastOID: int
    /** The rule objects that have been deleted. */
    ghost var freed: set<AclRule>

    function View(): AclState
      reads this
    {
      AclState(Rows(aclRulesOids), lastOID)
    }

    ghost function State(): Engine
      reads this, db
    {
      Engine(aclRules, aclRulesOids, db.acl, lastOID)
    }

    /** The indexes agree with each other, the table has at least what they have, and nothing of it is deleted. */
    ghost predicate Indexed()
      reads this, db
    {
      Agrees(State()) && forall o :: o in aclRulesOids ==> aclRulesOids[o] !in freed
    }

    /** And the table has nothing else. */
    ghost predicate Valid()
      reads this, db
    {
      Indexed() && db.acl == View().rules
    }

    /**
     A database without a last oid gets the two default rules at once. What else its table holds
     is not looked at: the manager agrees with the table exactly if the table was empty.
     */
    constructor (db: SqlDb, okCreate: bool, okDeploy: bool, controlOk: bool)
      requires -1 <= db.lastOid <= INT_MAX
      modifies db
      ensures this.db == db
      ensures Indexed()
      ensures View() == if old(db.lastOid) == -1 then Booted(old(db.acl), okCreate, okDeploy)
                        else AclState(map[], old(db.lastOid))
      ensures forall o :: o in db.acl <==> o in old(db.acl) || o in View().rules
      ensures forall o :: o in old(db.acl) ==> o !in View().rules && db.acl[o] == old(db.acl)[o]
      ensures old(db.lastOid) != -1 || !controlOk ==> db.lastOid == old(db.lastOid)
      ensures Valid() <==> old(db.acl) == map[]
    {
      this.db := db;
      aclRules := map[];
      aclRulesOids := map[];
      lastOID := db.lastOid;
      freed := {};
      new;
      assert Rows(aclRulesOids) == map[];
      if lastOID == -1 {
        AddDefaults(okCreate, okDeploy, controlOk);
      }
      SameTable(old(db.acl), View().rules, db.acl);
    }

    method AddDefaults(okCreate: bool, okDeploy: bool, controlOk: bool)
      requires Indexed() && View() == AclState(map[], -1)
      modifies this, db
      ensures Indexed() && View() == Booted(old(db.acl), okCreate, okDeploy)
      ensures forall o :: o in db.acl <==> o in old(db.acl) || o in View().rules
      ensures forall o :: o in old(db.acl) ==> o !in View().rules && db.acl[o] == old(db.acl)[o]
      ensures !controlOk ==> db.lastOid == old(db.lastOid)
    {
      hide Indexed, Valid, Rows, Stored, WellFormed, Enter;
      DefaultsAdded(db.acl, okCreate, okDeploy);
      var create, deploy := DEFAULT_CREATE, DEFAULT_DEPLOY;
      var first, _ := AddRule(create.user, create.resource, create.rights, okCreate, controlOk);
      var second, _ := AddRule(deploy.user, deploy.resource, deploy.rights, okDeploy, controlOk);
    }

    /** The callback for one row: it appends to the index by user whatever the index by oid holds. */
    method SelectCb(oid: int, w: RuleWords) returns (ghost rule: AclRule)
      modifies this
      ensures fresh(rule) && rule.oid == oid && rule.words == w
      ensures aclRules == Insert(old(aclRules), rule)
      ensures aclRulesOids == if oid in old(aclRulesOids) then old(aclRulesOids) else old(aclRulesOids)[oid := rule]
      ensures lastOID == old(lastOID) && freed == old(freed)
    {
      var r := new AclRule(oid, w.user, w.resource, w.rights);
      aclRules := Insert(aclRules, r);
      if oid !in aclRulesOids {
        aclRulesOids := aclRulesOids[oid := r];
      }
      rule := r;
    }

    /**
     Loading the table, in whatever order its rows come, gives a valid manager exactly when
     nothing had been indexed before; every rule that was indexed is indexed a second time.
     */
    method Start(rows: seq<int>)
      requires Inv(AclState(db.acl, lastOID))
      requires forall o :: o in rows <==> o in db.acl
      requires Distinct(rows)
      requires Indexed()
      modifies this
      ensures Valid() <==> old(aclRulesOids) == map[]
      ensures old(aclRulesOids) == map[] ==> View() == AclState(db.acl, old(lastOID))
      ensures forall o :: o in aclRulesOids ==> o in db.acl && aclRulesOids[o].words == db.acl[o]
      ensures forall o :: o in old(aclRulesOids) ==>
                o in aclRulesOids && aclRulesOids[o] == old(aclRulesOids)[o] && Copied(aclRules, aclRulesOids[o])
      ensures FromTable(aclRules, db.acl)
    {
      hide Consistent, WellFormed, Rows, RowsOf, Doubled, Insert, Inv, FromTable;
      ghost var oids := aclRulesOids;
      ghost var empty := aclRulesOids == map[];
      BeforeStart(aclRules, aclRulesOids, db.acl);
      assert rows[..0] == [];
      for i := 0 to |rows|
        invariant lastOID == old(lastOID)
        invariant empty ==> Loaded(rows[..i])
        invariant forall o :: o in oids ==> o in aclRulesOids && aclRulesOids[o] == oids[o]
        invariant forall o :: o in aclRulesOids ==> o in db.acl && aclRulesOids[o].words == db.acl[o]
        invariant Doubled(aclRules, oids, rows[..i])
        invariant FromTable(aclRules, db.acl)
      {
        assert rows[i] in rows && rows[..i + 1] == rows[..i] + [rows[i]];
        ghost var was, wasOids := aclRules, aclRulesOids;
        var rule := SelectCb(rows[i], db.acl[rows[i]]);
        DoubleNext(was, oids, rows[..i], rule);
        InsertFromTable(was, db.acl, rule);
        if empty {
          LoadRow(was, wasOids, db.acl, rows[..i], rule);
        }
      }
      assert rows[..|rows|] == rows;
      AllDoubled(aclRules, oids, rows, db.acl);
      if o :| o in oids {
        Orphan(aclRules, aclRulesOids, Rows(aclRulesOids), oids[o]);
      } else {
        NoKeys(oids);
        LoadedAll(aclRules, aclRulesOids, db.acl, rows);
      }
    }

    /** The indexes hold exactly these rows of the table. */
    ghost predicate Loaded(rows: seq<int>)
      reads this, db
    {
      && Consistent(aclRules, aclRulesOids, RowsOf(db.acl, rows))
      && forall o :: o in aclRulesOids ==> aclRulesOids[o] !in freed
    }

    /**
     Whatever state the indexes are in, an add does what `Enter` says; the object of a failed add
     is deleted. On indexes that agree, that is what the store says.
     */
    method AddRule(user: Word, resource: Word, rights: Word, dbOk: bool, controlOk: bool)
      returns (rc: int, ghost rule: AclRule)
      requires -1 <= lastOID <= INT_MAX
      modifies this, db
      ensures fresh(rule) && rule.oid == NextOid(old(lastOID)) && rule.words == RuleWords(user, resource, rights)
      ensures (State(), rc) == Enter(old(State()), rule, dbOk)
      ensures freed == old(freed) + if rc < 0 then {rule} else {}
      ensures db.lastOid == if rc >= 0 && controlOk then rc else old(db.lastOid)
      ensures old(Indexed()) ==>
                && Indexed() && (View(), rc) == Add(old(View()), rule.words, dbOk && rule.oid !in old(db.acl))
                && db.acl == if rc >= 0 then old(db.acl)[rc := rule.words] else old(db.acl)
      ensures old(Valid()) ==> Valid() && (View(), rc) == Add(old(View()), rule.words, dbOk)
    {
      hide WellFormed, Holds, Insert, Agrees, Add;
      ghost var e := State();
      if lastOID == INT_MAX {
        lastOID := -1;
      }
      lastOID := lastOID + 1;
      var newRule := new AclRule(lastOID, user, resource, rights);
      rule := newRule;
      rc := TryAdd(newRule, dbOk, controlOk);
      if rc < 0 {
        freed := freed + {newRule};
        lastOID := lastOID - 1;
      }
      AddMeaning(e, rule, dbOk);
      assert (State(), rc) == Enter(e, rule, dbOk);
    }

    /** The checks and the insertion of `add_rule`, once the rule object has its oid. */
    method TryAdd(rule: AclRule, dbOk: bool, controlOk: bool) returns (rc: int)
      requires rule.oid == lastOID && lastOID >= 0
      modifies this`aclRules, this`aclRulesOids, db
      ensures (State(), rc) == TryEnter(old(State()), rule, dbOk)
      ensures db.lastOid == if rc >= 0 && controlOk then rc else old(db.lastOid)
    {
      hide WellFormed;
      var found := Duplicated(aclRules, rule);
      if found {
        return -1;
      }
      var malformed := Malformed(rule.words);
      if malformed {
        return -2;
      }
      rc := db.InsertRow(rule.oid, rule.words, dbOk);
      if rc != 0 {
        return -3;
      }
      aclRules := Insert(aclRules, rule);
      if rule.oid !in aclRulesOids {
        aclRulesOids := aclRulesOids[rule.oid := rule];
      }
      if controlOk {
        db.lastOid := lastOID;
      }
      rc := lastOID;
    }

    /**
     Whatever state the indexes are in, a delete does what `Remove` says. On indexes that agree,
     that is what the store says, and the object deleted is the very object of the oid index.
     */
    method DelRule(oid: int, dbOk: bool) returns (rc: int, ghost gone: set<AclRule>)
      modifies this, db`acl
      ensures (State(), rc) == Remove(old(State()), oid, dbOk)
      ensures freed == old(freed) + gone
      ensures old(Indexed()) ==> && Indexed() && (View(), rc) == Del(old(View()), oid, dbOk)
                                 && gone == if rc == 0 then {old(aclRulesOids)[oid]} else {}
      ensures old(Valid()) ==> Valid()
    {
      gone := {};
      ghost var e := State();
      DelMeaning(e, oid, dbOk);
      hide Agrees, Del, WordsOf;
      var found := oid in aclRulesOids;
      if !found {
        return -1, gone;
      }
      var rule := aclRulesOids[oid];
      var it := 0;
      found, it := SearchRule(rule);
      if !found {
        return -1, gone;
      }
      rc := db.DropRow(oid, dbOk);
      if rc != 0 {
        return -1, gone;
      }
      gone := {EqualRange(aclRules, rule.words.user)[it]};
      freed := freed + gone;
      aclRules := Erase(aclRules, rule.words.user, it);
      aclRulesOids := aclRulesOids - {oid};
      hide Erase, FirstAt;
    }

    /** The loop of `del_rule`: the first rule under the user word that is equal by value. */
    method SearchRule(rule: AclRule) returns (found: bool, it: nat)
      ensures found <==> Holds(aclRules, rule.words)
      ensures found ==> && rule.words.user in aclRules
                        && it == FirstAt(EqualRange(aclRules, rule.words.user), rule.words)
    {
      found := false;
      var index := EqualRange(aclRules, rule.words.user);
      it := 0;
      while !found && it < |index|
        invariant 0 <= it <= |index|
        invariant found ==> it < |index| && index[it].words == rule.words
        invariant forall j :: 0 <= j < it ==> index[j].words != rule.words
      {
        found := rule.words == index[it].words;
        if !found {
          it := it + 1;
        }
      }
      if found {
        assert WordsOf(index)[it] == rule.words;
      }
    }

    method MatchRulesWrapper(userReq: Word, m: Masks, tmpRules: RuleIndex) returns (auth: bool)
      ensures auth <==>
              AnyMatch(WordsOf(EqualRange(tmpRules, userReq)), m) || AnyMatch(WordsOf(EqualRange(aclRules, userReq)), m)
    {
      auth := MatchRules(userReq, m, tmpRules);
      if auth {
        return true;
      }
      auth := MatchRules(userReq, m, aclRules);
    }

    /**
     A request is granted exactly when a permission bit of the object grants it or a rule in the
     index does; where the indexes agree, a rule of the store.
     */
    method Authorize(uid: Int32, gid: Int32, p: ObjectAuth, op: Operation) returns (auth: bool)
      ensures auth <==> || BitsGrant(p, uid, gid, op)
                        || IndexGrants(aclRules, Request(uid, gid, p.t, p.oid, p.gid, op))
      ensures Indexed() ==>
                (auth <==> BitsGrant(p, uid, gid, op) || Allowed(View(), Request(uid, gid, p.t, p.oid, p.gid, op)))
    {
      hide BitsGrant, MaskTest, RequestMasks, Allowed, Consistent;
      var m := RequestMasks(p.t, p.oid, p.gid, op);
      var keys := UserKeys(uid, gid);
      var tmpRules := TemporaryRules(p);
      PermissionBitsMeaning(p, uid, gid, op);
      if Indexed() {
        AllowedMeaning(aclRules, aclRulesOids, Rows(aclRulesOids), lastOID, Request(uid, gid, p.t, p.oid, p.gid, op));
      }
      KeysApartUnder(tmpRules, keys, m);
      KeysApartUnder(aclRules, keys, m);
      TemporaryMeaning(tmpRules, AclRulesOf(p), keys, m);
      auth := MatchRulesWrapper(keys[0], m, tmpRules);
      if auth {
        return true;
      }
      auth := MatchRulesWrapper(keys[1], m, tmpRules);
      if auth {
        return true;
      }
      auth := MatchRulesWrapper(keys[2], m, tmpRules);
    }

    /**
     With `all`, both lists end empty although the outer loop goes on. Without it, they name, after
     what they held before, the groups and the objects of every rule met. Started empty, the
     result answers every question that `authorize` could ask of the indexed rules, as long as
     those met are well-formed; in a manager whose indexes agree they are.
     */
    method ReverseSearch(uid: Int32, gid: Int32, t: ObjectType, op: Operation, oids0: seq<Int32>, gids0: seq<Int32>)
      returns (all: bool, oids: seq<Int32>, gids: seq<Int32>)
      ensures var met := Under(aclRules, UserKeys(uid, gid));
              && (all <==> AnyForAll(met, t, op))
              && (all ==> oids == [] && gids == [])
              && (!all ==> oids == oids0 + SingleIds(met, t, op) && gids == gids0 + GroupIds(met, t, op))
      ensures oids0 == [] && gids0 == [] && MetWellFormed(aclRules, uid, gid) ==> forall oid: Int32, ogid: Int32 ::
                IndexGrants(aclRules, Request(uid, gid, t, oid, ogid, op)) <==> all || oid in oids || ogid in gids
      ensures Indexed() ==> MetWellFormed(aclRules, uid, gid)
      ensures Indexed() && oids0 == [] && gids0 == [] ==> forall oid: Int32, ogid: Int32 ::
                Allowed(View(), Request(uid, gid, t, oid, ogid, op)) <==> all || oid in oids || ogid in gids
    {
      hide AnyForAll, SingleIds, GroupIds, AnyMatch, Under, Consistent, Inv, WellFormed;
      var keys := UserKeys(uid, gid);
      all, oids, gids := false, oids0, gids0;
      OfNone(t, op);
      UnderNone(aclRules, keys);
      for i := 0 to 3
        invariant all <==> AnyForAll(Under(aclRules, keys[..i]), t, op)
        invariant all ==> oids == [] && gids == []
        invariant !all ==> && oids == oids0 + SingleIds(Under(aclRules, keys[..i]), t, op)
                           && gids == gids0 + GroupIds(Under(aclRules, keys[..i]), t, op)
      {
        var index := EqualRange(aclRules, keys[i]);
        UnderNext(aclRules, keys, i);
        Joined(Under(aclRules, keys[..i]), WordsOf(index), t, op);
        var hit;
        hit, oids, gids := ScanRules(index, t, op, oids, gids);
        all := all || hit;
        if all {
          oids := [];
          gids := [];
        }
      }
      assert keys[..3] == keys;
      hide IndexGrants, Allowed, Agrees, MetWellFormed;
      if oids0 == [] && gids0 == [] {
        ReverseMeaning(aclRules, uid, gid, t, op, all, oids, gids);
      }
      if Indexed() {
        StoredWellFormed(State(), uid, gid);
        ReverseOnStore(State(), uid, gid, t, op);
      }
    }
  }

  lemma ReverseMeaning(rules: RuleIndex, uid: Int32, gid: Int32, t: ObjectType, op: Operation,
                       all: bool, oids: seq<Int32>, gids: seq<Int32>)
    requires var met := Under(rules, UserKeys(uid, gid));
             && (all <==> AnyForAll(met, t, op))
             && (!all ==> oids == SingleIds(met, t, op) && gids == GroupIds(met, t, op))
    ensures MetWellFormed(rules, uid, gid) ==> forall oid: Int32, ogid: Int32 ::
              IndexGrants(rules, Request(uid, gid, t, oid, ogid, op)) <==> all || oid in oids || ogid in gids
  {
    hide WellFormed, Under, AnyMatch, AnyForAll, UserKeys;
    if MetWellFormed(rules, uid, gid) {
      ReverseAnswers(Under(rules, UserKeys(uid, gid)), t, op, all, oids, gids);
    }
  }

  lemma ReverseOnStore(e: Engine, uid: Int32, gid: Int32, t: ObjectType, op: Operation)
    requires Agrees(e)
    ensures forall oid: Int32, ogid: Int32 ::
              IndexGrants(e.rules, Request(uid, gid, t, oid, ogid, op)) <==>
              Allowed(StoreOf(e), Request(uid, gid, t, oid, ogid, op))
  {
    forall oid: Int32, ogid: Int32
      ensures IndexGrants(e.rules, Request(uid, gid, t, oid, ogid, op)) <==>
              Allowed(StoreOf(e), Request(uid, gid, t, oid, ogid, op))
    {
      AllowedMeaning(e.rules, e.oids, Rows(e.oids), e.lastOID, Request(uid, gid, t, oid, ogid, op));
    }
  }

  /** The rules under the three keys are well-formed. */
  ghost predicate MetWellFormed(rules: RuleIndex, uid: Int32, gid: Int32) {
    forall w :: w in Under(rules, UserKeys(uid, gid)) ==> WellFormed(w)
  }

  lemma StoredWellFormed(e: Engine, uid: Int32, gid: Int32)
    requires Agrees(e)
    ensures MetWellFormed(e.rules, uid, gid)
  {
    hide WellFormed;
    forall w | w in Under(e.rules, UserKeys(uid, gid)) ensures WellFormed(w) {
      UnderHolds(e.rules, UserKeys(uid, gid), w);
      HoldsRow(e.rules, e.oids, Rows(e.oids), w);
      var o :| o in StoreOf(e).rules && StoreOf(e).rules[o] == w;
    }
  }

  lemma AddMeaning(e: Engine, rule: AclRule, dbOk: bool)
    requires rule.oid == NextOid(e.lastOID)
    ensures Agrees(e) ==>
              var (f, rc) := Enter(e, rule, dbOk);
              && Agrees(f) && (StoreOf(f), rc) == Add(StoreOf(e), rule.words, dbOk && rule.oid !in e.table)
              && (e.table == StoreOf(e).rules ==>
                    f.table == StoreOf(f).rules && (StoreOf(f), rc) == Add(StoreOf(e), rule.words, dbOk))
              && (rc >= 0 ==> f.table == e.table[rc := rule.words])
              && (rc < 0 ==> f.table == e.table)
              && forall o :: o in f.oids ==> (f.oids[o] == rule && rc >= 0) || (o in e.oids && f.oids[o] == e.oids[o])
  {
    if Agrees(e) {
      EnterMeaning(e, rule, dbOk);
      EnterIndexes(e, rule, dbOk);
      KnownBefore(e, rule);
      hide Agrees, Enter, Holds, Stored, WellFormed, Rows;
    }
  }

  /** The table and the index by oid after an add. */
  lemma EnterIndexes(e: Engine, rule: AclRule, dbOk: bool)
    requires rule.oid == NextOid(e.lastOID) >= 0
    ensures var (f, rc) := Enter(e, rule, dbOk);
            && f.table == (if rc >= 0 then e.table[rc := rule.words] else e.table)
            && forall o :: o in f.oids ==> (f.oids[o] == rule && rc >= 0) || (o in e.oids && f.oids[o] == e.oids[o])
  {
    hide WellFormed, Holds, Insert;
  }

  lemma DelMeaning(e: Engine, oid: int, dbOk: bool)
    ensures Agrees(e) ==>
              var (f, rc) := Remove(e, oid, dbOk);
              && Agrees(f) && (StoreOf(f), rc) == Del(StoreOf(e), oid, dbOk)
              && (e.table == StoreOf(e).rules ==> f.table == StoreOf(f).rules)
              && (oid in e.oids ==>
                    var w := e.oids[oid].words;
                    && Holds(e.rules, w)
                    && EqualRange(e.rules, w.user)[FirstAt(EqualRange(e.rules, w.user), w)] == e.oids[oid]
                    && forall o :: o in e.oids && o != oid ==> e.oids[o] != e.oids[oid])
  {
    hide WellFormed, Holds, Inv, Erase;
    if Agrees(e) {
      RemoveMeaning(e, oid, dbOk);
    }
  }

  /**
   A new installation: the default rules are indexed by the constructor and loaded once more by
   the start. Deleting the first of them then succeeds and empties its row, but users of group 1
   may go on creating: neither a row nor a permission bit grants what `authorize` grants.
   */
  method FreshInstallation(db: SqlDb, uid: Int32, p: ObjectAuth) returns (m: AclManager, rc: int, granted: bool)
    requires db.lastOid == -1 && db.acl == map[]
    requires p.t in {VM, NET, IMAGE, TEMPLATE}
    modifies db
    ensures rc == 0 && 0 !in db.acl && granted
    ensures !BitsGrant(p, uid, {0}, CREATE)
    ensures !Allowed(AclState(db.acl, 1), Request(uid, {0}, p.t, p.oid, p.gid, CREATE))
    ensures m.db == db && Orphaned(m.State(), DEFAULT_CREATE)
  {
    hide Copied, Holds, Allowed, IndexGrants, BitsGrant, Agrees;
    m := StartNew(db);
    ghost var e := m.State();
    CopySurvives(e, 0);
    ghost var gone;
    rc, gone := m.DelRule(0, true);
    granted := m.Authorize(uid, {0}, p, CREATE);
    CreateStillGranted(m.State(), [], uid, p);
    BitsNeverCreate(p, uid, {0});
    NoRowCreates(db.acl, Request(uid, {0}, p.t, p.oid, p.gid, CREATE));
  }

  method StartNew(db: SqlDb) returns (m: AclManager)
    requires db.lastOid == -1 && db.acl == map[]
    modifies db
    ensures fresh(m) && m.db == db && db.acl == map[0 := DEFAULT_CREATE, 1 := DEFAULT_DEPLOY]
    ensures !m.Valid()
    ensures 0 in m.aclRulesOids && m.aclRulesOids[0].words == DEFAULT_CREATE && Copied(m.aclRules, m.aclRulesOids[0])
    ensures forall o :: o in m.aclRulesOids && o != 0 ==> m.aclRulesOids[o].words != DEFAULT_CREATE
    ensures forall q :: IndexGrants(m.aclRules, q) <==> ByDefault(q)
  {
    hide Agrees, Copied, WellFormed, IndexGrants, FromTable;
    DefaultsWellFormed();
    m := new AclManager(db, true, true, true);
    assert m.View() == AclState(map[0 := DEFAULT_CREATE, 1 := DEFAULT_DEPLOY], 1);
    assert 0 in m.View().rules && m.aclRulesOids[0].words == DEFAULT_CREATE;
    assert 1 in m.View().rules && m.aclRulesOids[1].words == DEFAULT_DEPLOY;
    m.Start([0, 1]);
    assert InIndex(m.aclRules, m.aclRulesOids[0]) && InIndex(m.aclRules, m.aclRulesOids[1]) by { CopiedIn(m.aclRules); }
    forall q ensures IndexGrants(m.aclRules, q) <==> ByDefault(q) {
      DefaultDecisions(m.aclRules, m.aclRulesOids[0], m.aclRulesOids[1], db.acl, q);
    }
  }

  /** What the rules of a new installation grant: group 1 creates four types of objects and manages hosts. */
  predicate ByDefault(q: Request) {
    && q.gid == {0}
    && (|| (q.op == CREATE && q.t in {VM, NET, IMAGE, TEMPLATE})
        || (q.op == MANAGE && q.t == HOST))
  }

  lemma CopiedIn(rules: RuleIndex)
    ensures forall r :: Copied(rules, r) ==> InIndex(rules, r)
  {
  }

  lemma DefaultDecisions(rules: RuleIndex, create: AclRule, deploy: AclRule, table: map<int, RuleWords>, q: Request)
    requires FromTable(rules, table) && InIndex(rules, create) && InIndex(rules, deploy)
    requires create.words == DEFAULT_CREATE && deploy.words == DEFAULT_DEPLOY
    requires forall o :: o in table ==> table[o] == DEFAULT_CREATE || table[o] == DEFAULT_DEPLOY
    ensures IndexGrants(rules, q) <==> ByDefault(q)
  {
    hide Under, MaskTest, UserKeys, RequestMasks, ByDefault, Permits, Holds, Filed, InIndex;
    var keys, m := UserKeys(q.uid, q.gid), RequestMasks(q.t, q.oid, q.ogid, q.op);
    DefaultsMatch(q);
    CopyHolds(rules, create);
    CopyHolds(rules, deploy);
    forall w ensures w in Under(rules, keys) <==> w.user in keys && (w == DEFAULT_CREATE || w == DEFAULT_DEPLOY) {
      HeldInTable(rules, table, w);
      UnderHolds(rules, keys, w);
    }
    hide FromTable;
  }

  lemma HeldInTable(rules: RuleIndex, table: map<int, RuleWords>, w: RuleWords)
    requires FromTable(rules, table)
    ensures Holds(rules, w) ==> exists o :: o in table && table[o] == w
  {
    var bucket := EqualRange(rules, w.user);
    if i :| 0 <= i < |bucket| && WordsOf(bucket)[i] == w {
      assert bucket[i] in rules[w.user];
    }
  }

  lemma DefaultsMatch(q: Request)
    ensures var keys, m := UserKeys(q.uid, q.gid), RequestMasks(q.t, q.oid, q.ogid, q.op);
            (|| (DEFAULT_CREATE.user in keys && MaskTest(DEFAULT_CREATE, m))
             || (DEFAULT_DEPLOY.user in keys && MaskTest(DEFAULT_DEPLOY, m))) <==> ByDefault(q)
  {
    MatchMeaning(DEFAULT_CREATE, q);
    MatchMeaning(DEFAULT_DEPLOY, q);
    hide MaskTest, UserKeys, RequestMasks;
    DefaultNames(q.uid, q.gid);
    DefaultTypes(q.t, q.oid, q.ogid);
    assert q.op in Rights(DEFAULT_CREATE.rights) <==> q.op == CREATE;
    assert q.op in Rights(DEFAULT_DEPLOY.rights) <==> q.op == MANAGE;
    hide NamesUser, NamesObject, Rights;
  }

  lemma DefaultNames(uid: Int32, gid: Int32)
    ensures NamesUser(DEFAULT_CREATE, uid, gid) <==> gid == {0}
    ensures NamesUser(DEFAULT_DEPLOY, uid, gid) <==> gid == {0}
  {
    var user := GROUP_ID + {0};
    assert IdOf(user) == {0} && !Negative({0});
    WhoSelects(user);
    assert 33 in user && 32 !in user && 33 !in ALL_ID;
    assert user != INDIVIDUAL_ID + {0};
    hide Who;
  }

  lemma DefaultTypes(t: ObjectType, oid: Int32, gid: Int32)
    ensures NamesObject(DEFAULT_CREATE, t, oid, gid) <==> t in {VM, NET, IMAGE, TEMPLATE}
    ensures NamesObject(DEFAULT_DEPLOY, t, oid, gid) <==> t == HOST
  {
    assert 34 in DEFAULT_CREATE.resource && 34 in DEFAULT_DEPLOY.resource;
    assert t in Types(DEFAULT_CREATE.resource) <==> TypeBit(t) in DEFAULT_CREATE.resource;
    assert t in Types(DEFAULT_DEPLOY.resource) <==> TypeBit(t) in DEFAULT_DEPLOY.resource;
  }

  /**
   An installation whose first start stored the default rules but not the last oid: every later
   start boots again, finds oid 0 taken, and ends with a valid store that takes no rule.
   */
  method LostCounter(db: SqlDb) returns (m: AclManager)
    requires db.lastOid == -1 && db.acl == map[]
    modifies db
    ensures db.acl == map[0 := DEFAULT_CREATE, 1 := DEFAULT_DEPLOY]
    ensures m.Valid() && m.View() == AclState(db.acl, -1)
    ensures forall ops, w, ok :: NeverDeletes(ops, 0) ==> Add(Run(m.View(), ops), w, ok).1 < 0
  {
    hide Agrees, WellFormed, Stored;
    DefaultsWellFormed();
    var first := new AclManager(db, true, true, false);
    assert db.acl == first.View().rules;
    m := RestartWithoutCounter(db, [0, 1]);
  }

  /** The same for any table that has oid 0 and for any order of its rows. */
  method RestartWithoutCounter(db: SqlDb, rows: seq<int>) returns (m: AclManager)
    requires db.lastOid == -1 && 0 in db.acl && Inv(AclState(db.acl, -1))
    requires Distinct(rows) && forall o :: o in rows <==> o in db.acl
    modifies db
    ensures fresh(m) && m.db == db && db.acl == old(db.acl)
    ensures m.Valid() && m.View() == AclState(db.acl, -1)
    ensures forall ops, w, ok :: NeverDeletes(ops, 0) ==> Add(Run(m.View(), ops), w, ok).1 < 0
  {
    m := new AclManager(db, true, true, true);
    assert m.View() == AclState(map[], -1);
    EmptyView(m.aclRulesOids);
    SameRows(old(db.acl), db.acl);
    m.Start(rows);
    forall ops, w, ok | NeverDeletes(ops, 0) ensures Add(Run(m.View(), ops), w, ok).1 < 0 {
      BlockedUntilDeleted(m.View(), ops);
    }
  }

  lemma EmptyView(oids: map<int, AclRule>)
    requires Rows(oids) == map[]
    ensures oids == map[]
  {
    forall o ensures o !in oids {
      assert o in oids ==> o in Rows(oids);
    }
  }

  lemma SameRows(before: map<int, RuleWords>, after: map<int, RuleWords>)
    requires forall o :: o in before <==> o in after
    requires forall o :: o in before ==> before[o] == after[o]
    ensures before == after
  {
    SameMap(before, after);
  }

  lemma CopyHolds(rules: RuleIndex, r: AclRule)
    requires InIndex(rules, r)
    ensures Holds(rules, r.words)
  {
    var bucket := EqualRange(rules, r.words.user);
    var i :| 0 <= i < |bucket| && bucket[i] == r;
    assert WordsOf(bucket)[i] == r.words;
  }

  /** In every run of adds and deletes from such a state, group 1 goes on creating, and the rule cannot be added. */
  lemma CreateStillGranted(e: Engine, ops: seq<EngineOp>, uid: Int32, p: ObjectAuth)
    requires Orphaned(e, DEFAULT_CREATE) && p.t in {VM, NET, IMAGE, TEMPLATE}
    ensures var f := RunEngine(e, ops);
            && IndexGrants(f.rules, Request(uid, {0}, p.t, p.oid, p.gid, CREATE))
            && forall rule: AclRule, ok :: rule.words == DEFAULT_CREATE ==> Enter(f, rule, ok).1 == -1
  {
    var f, w := RunEngine(e, ops), DEFAULT_CREATE;
    OrphanedForGood(e, ops, w);
    var m := RequestMasks(p.t, p.oid, p.gid, CREATE);
    KeysApartUnder(f.rules, UserKeys(uid, {0}), m);
    assert UserKeys(uid, {0})[2] == w.user;
    assert MaskTest(w, m) by {
      MaskTestMeaning(w, p.t, p.oid, p.gid, CREATE);
      assert TypeBit(p.t) in w.resource && 34 in w.resource && RightBit(CREATE) in w.rights;
    }
  }

  lemma NoRowCreates(table: map<int, RuleWords>, q: Request)
    requires forall o :: o in table ==> table[o] == DEFAULT_DEPLOY
    requires q.op == CREATE
    ensures !Allowed(AclState(table, 1), q)
  {
    assert RightBit(CREATE) !in DEFAULT_DEPLOY.rights;
  }

  lemma Orphan(rules: RuleIndex, oids: map<int, AclRule>, table: map<int, RuleWords>, r: AclRule)
    requires Copied(rules, r) && r.oid in oids && oids[r.oid] == r
    ensures !Consistent(rules, oids, table)
  {
    var c :| c in EqualRange(rules, r.words.user) && IsCopy(c, r);
    assert c.words.user in rules && c in rules[c.words.user];
  }

  /** What the indexes hold before the table is loaded. */
  lemma BeforeStart(rules: RuleIndex, oids: map<int, AclRule>, table: map<int, RuleWords>)
    requires Consistent(rules, oids, Rows(oids))
    requires forall o :: o in oids ==> o in table && table[o] == oids[o].words
    ensures oids == map[] ==> Consistent(rules, oids, RowsOf(table, []))
    ensures Doubled(rules, oids, []) && FromTable(rules, table)
  {
    if oids == map[] {
      assert Rows(oids) == RowsOf(table, []);
    }
  }

  function RowsOf(table: map<int, RuleWords>, rows: seq<int>): map<int, RuleWords> {
    map o | o in table && o in rows :: table[o]
  }

  lemma LoadRow(rules: RuleIndex, oids: map<int, AclRule>, table: map<int, RuleWords>, rows: seq<int>, r: AclRule)
    requires Consistent(rules, oids, RowsOf(table, rows))
    requires r.oid !in rows && r.oid in table && table[r.oid] == r.words
    ensures r.oid !in oids
    ensures Consistent(Insert(rules, r), oids[r.oid := r], RowsOf(table, rows + [r.oid]))
  {
    assert r.oid !in Rows(oids);
    InsertConsistent(rules, oids, RowsOf(table, rows), r);
    assert RowsOf(table, rows)[r.oid := r.words] == RowsOf(table, rows + [r.oid]);
  }

  lemma LoadedAll(rules: RuleIndex, oids: map<int, AclRule>, table: map<int, RuleWords>, rows: seq<int>)
    requires Consistent(rules, oids, RowsOf(table, rows))
    requires forall o :: o in rows <==> o in table
    ensures Consistent(rules, oids, Rows(oids)) && Rows(oids) == table
  {
    var all := RowsOf(table, rows);
    forall o ensures o in all <==> o in table {
      assert o in table ==> o in rows;
    }
    assert all == table;
  }

  lemma DefaultsWellFormed()
    ensures WellFormed(DEFAULT_CREATE) && WellFormed(DEFAULT_DEPLOY) && DEFAULT_CREATE != DEFAULT_DEPLOY
  {
    DefaultWellFormed(DEFAULT_CREATE, VM);
    DefaultWellFormed(DEFAULT_DEPLOY, HOST);
    assert 1 !in DEFAULT_CREATE.rights && 1 in DEFAULT_DEPLOY.rights;
  }

  lemma DefaultWellFormed(w: RuleWords, t: ObjectType)
    requires w.user == GROUP_ID + {0}
    requires 34 in w.resource && TypeBit(t) in w.resource && forall b :: b in w.resource ==> 34 <= b < 44
    requires w.rights != {} && forall b :: b in w.rights ==> b < 4
    ensures WellFormed(w)
  {
    assert IdOf(w.user) == {0} && IdOf(w.resource) == {};
    assert What(w.user) == {OfGroup({0})} && What(w.resource) == {Any};
    assert t in Types(w.resource);
  }

  method TemporaryRules(p: ObjectAuth) returns (tmpRules: RuleIndex)
    ensures Filed(tmpRules)
    ensures forall w :: Holds(tmpRules, w) <==> w in AclRulesOf(p)
  {
    var ws := AclRulesOf(p);
    tmpRules := map[];
    for i := 0 to 3
      invariant Filed(tmpRules)
      invariant forall w :: Holds(tmpRules, w) <==> w in ws[..i]
    {
      var rule := new AclRule(0, ws[i].user, ws[i].resource, ws[i].rights);
      InsertHolds(tmpRules, rule);
      assert ws[..i + 1] == ws[..i] + [ws[i]];
      tmpRules := Insert(tmpRules, rule);
    }
    assert ws[..3] == ws;
  }

  lemma KeysApartUnder(rules: RuleIndex, keys: seq<Word>, m: Masks)
    requires |keys| == 3
    ensures AnyMatch(Under(rules, keys), m) <==>
            || AnyMatch(WordsOf(EqualRange(rules, keys[0])), m)
            || AnyMatch(WordsOf(EqualRange(rules, keys[1])), m)
            || AnyMatch(WordsOf(EqualRange(rules, keys[2])), m)
  {
    UnderNone(rules, keys);
    UnderNext(rules, keys, 0);
    UnderNext(rules, keys, 1);
    UnderNext(rules, keys, 2);
    assert keys[..3] == keys;
  }

  lemma TemporaryMeaning(tmpRules: RuleIndex, ws: seq<RuleWords>, keys: seq<Word>, m: Masks)
    requires Filed(tmpRules)
    requires forall w :: Holds(tmpRules, w) <==> w in ws
    ensures AnyMatch(Under(tmpRules, keys), m) <==> exists w :: w in ws && w.user in keys && MaskTest(w, m)
  {
    forall w ensures w in Under(tmpRules, keys) <==> w.user in keys && w in ws {
      UnderHolds(tmpRules, keys, w);
    }
  }

  /** What the stored rules grant under the three keys is what `Allowed` says in sets. */
  lemma AllowedMeaning(rules: RuleIndex, oids: map<int, AclRule>, table: map<int, RuleWords>, lastOID: int, q: Request)
    requires Consistent(rules, oids, table)
    ensures IndexGrants(rules, q) <==> Allowed(AclState(Rows(oids), lastOID), q)
  {
    var keys, m := UserKeys(q.uid, q.gid), RequestMasks(q.t, q.oid, q.ogid, q.op);
    forall w ensures w in Under(rules, keys) && MaskTest(w, m) <==> Permits(w, q) && Stored(table, w) {
      UnderHolds(rules, keys, w);
      HoldsRow(rules, oids, table, w);
      MatchMeaning(w, q);
    }
    if w :| w in Under(rules, keys) && MaskTest(w, m) {
      var o :| o in table && table[o] == w;
      assert Permits(Rows(oids)[o], q);
    }
    if o :| o in Rows(oids) && Permits(Rows(oids)[o], q) {
      var w := Rows(oids)[o];
      assert Stored(table, w);
      assert w in Under(rules, keys) && MaskTest(w, m);
    }
  }
}
