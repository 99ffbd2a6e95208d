/**
 The words of an ACL rule (include/AclRule.h, src/acl/AclRule.cc) and what they mean.

 A rule is three 64-bit words that the engine only compares, after masking them with `&` and
 building requests with `|`. A word is kept as the set of its bits that are 1, so `&` is `*`
 and `|` is `+`; a C++ `int` inside a word is the set of its bits below 32, negative when bit 31
 is set. This module gives the words a meaning and proves that each mask test computes it.
 */
module AclRules {

  type Word = w: set<int> | forall b :: b in w ==> 0 <= b < 64
  type Int32 = i: set<int> | forall b :: b in i ==> 0 <= b < 32

  const INDIVIDUAL_ID: Word := {32}
  const GROUP_ID: Word := {33}
  const ALL_ID: Word := {34}
  const NONE_ID: Word := {60}

  /** 0x00000000FFFFFFFF */
  const ID_MASK: Word := Span(0, 32)

  predicate IsBit(b: int) {
    0 <= b < 64
  }

  /** The word whose ones are the bits from `low` up to but not including `high`. */
  function Span(low: int, high: int): Word {
    set b: int | 0 <= b < 64 && IsBit(b) && low <= b < high
  }

  datatype ObjectType = VM | HOST | NET | IMAGE | USER | TEMPLATE | GROUP | ACL

  datatype Operation = USE | MANAGE | ADMIN | CREATE

  function TypeBit(t: ObjectType): int {
    match t
    case VM => 36 case HOST => 37 case NET => 38 case IMAGE => 39
    case USER => 40 case TEMPLATE => 41 case GROUP => 42 case ACL => 43
  }

  function RightBit(op: Operation): int {
    match op
    case USE => 0 case MANAGE => 1 case ADMIN => 2 case CREATE => 3
  }

  function TypeCode(t: ObjectType): Word {
    {TypeBit(t)}
  }

  function RightCode(op: Operation): Word {
    {RightBit(op)}
  }

  predicate Negative(i: Int32) {
    31 in i
  }

  /** The C++ conversion from `int` to `long long`, which copies the sign upwards. */
  function SignExtend(i: Int32): Word {
    if Negative(i) then i + Span(32, 64) else i
  }

  /** The low 32 bits of a word, read as an `int`. */
  function IdOf(word: Word): Int32 {
    word * ID_MASK
  }

  datatype RuleWords = RuleWords(user: Word, resource: Word, rights: Word)

  // ---------------------------------------------------------------------------
  // The meaning of a rule
  // ---------------------------------------------------------------------------

  /** `*`, `#id` and `@id` in the notation of the rule printer. */
  datatype Target = Any | Single(id: Int32) | OfGroup(id: Int32)

  /**
   Whom the user word names. A word with stray high bits names nobody, except that the sign of
   a negative id fills the high half: such a word names both the user and the group of that id.
   */
  function Who(user: Word): set<Target> {
    var id := IdOf(user);
    if user == ALL_ID then {Any}
    else if user == INDIVIDUAL_ID + id && !Negative(id) then {Single(id)}
    else if user == GROUP_ID + id && !Negative(id) then {OfGroup(id)}
    else if user == SignExtend(id) && Negative(id) then {Single(id), OfGroup(id)}
    else {}
  }

  /** Everything the selector bits of a word select; a malformed word may select in several ways. */
  function What(word: Word): set<Target> {
    (if 34 in word then {Any} else {})
    + (if 32 in word then {Single(IdOf(word))} else {})
    + (if 33 in word then {OfGroup(IdOf(word))} else {})
  }

  function Types(resource: Word): set<ObjectType> {
    set t: ObjectType | TypeBit(t) in resource
  }

  function Rights(rights: Word): set<Operation> {
    set op: Operation | RightBit(op) in rights
  }

  /** A request: the user, the user's group, the object and the operation. */
  datatype Request = Request(uid: Int32, gid: Int32, t: ObjectType, oid: Int32, ogid: Int32, op: Operation)

  predicate NamesUser(w: RuleWords, uid: Int32, gid: Int32) {
    Any in Who(w.user) || Single(uid) in Who(w.user) || OfGroup(gid) in Who(w.user)
  }

  predicate NamesObject(w: RuleWords, t: ObjectType, oid: Int32, gid: Int32) {
    && t in Types(w.resource)
    && (|| Any in What(w.resource)
        || (!Negative(oid) && Single(oid) in What(w.resource))
        || (!Negative(gid) && OfGroup(gid) in What(w.resource)))
  }

  /** The rule allows the request. */
  predicate Permits(w: RuleWords, q: Request) {
    && NamesUser(w, q.uid, q.gid)
    && NamesObject(w, q.t, q.oid, q.ogid)
    && q.op in Rights(w.rights)
  }

  // ---------------------------------------------------------------------------
  // Well-formed rules
  // ---------------------------------------------------------------------------

  /** Exactly one of #, @ and * is chosen, the id is not negative, and it is 0 for *. */
  predicate OneSelector(word: Word) {
    && (|| What(word) == {Single(IdOf(word))}
        || What(word) == {OfGroup(IdOf(word))}
        || (What(word) == {Any} && IdOf(word) == {}))
    && !Negative(IdOf(word))
  }

  /** Not above 0xF as signed numbers: a word with its top bit set is negative. */
  predicate AtMost15(rights: Word) {
    63 in rights || forall b :: b in rights ==> b < 4
  }

  predicate WellFormed(w: RuleWords) {
    && OneSelector(w.user)
    && OneSelector(w.resource)
    && Types(w.resource) != {}
    && (forall b :: b in w.resource ==> b < 44)
    && w.rights != {}
    && AtMost15(w.rights)
  }

  lemma SelectorTests(word: Word)
    ensures OneSelector(word) <==>
            && !(word * INDIVIDUAL_ID != {} && word * GROUP_ID != {})
            && !(word * INDIVIDUAL_ID != {} && word * ALL_ID != {})
            && !(word * GROUP_ID != {} && word * ALL_ID != {})
            && word * {32, 33, 34} != {}
            && !Negative(IdOf(word))
            && !(word * ALL_ID != {} && IdOf(word) != {})
  {
    assert Any in What(word) <==> 34 in word * ALL_ID;
    assert Single(IdOf(word)) in What(word) <==> 32 in word * INDIVIDUAL_ID;
    assert OfGroup(IdOf(word)) in What(word) <==> 33 in word * GROUP_ID;
    assert word * {32, 33, 34} == word * INDIVIDUAL_ID + word * GROUP_ID + word * ALL_ID;
  }

  lemma TypesMissing(resource: Word)
    ensures Types(resource) == {} <==> resource * Span(36, 44) == {}
  {
    var present := resource * Span(36, 44);
    assert forall t: ObjectType :: t in Types(resource) <==> TypeBit(t) in present;
    if b :| b in present {
      var t := if b == 36 then VM else if b == 37 then HOST else if b == 38 then NET else if b == 39 then IMAGE
      else if b == 40 then USER else if b == 41 then TEMPLATE else if b == 42 then GROUP else ACL;
      assert t in Types(resource);
    }
  }

  /** The tests of `AclRule::malformed`, in the order of the source. */
  method Malformed(w: RuleWords) returns (error: bool)
    ensures error <==> !WellFormed(w)
  {
    SelectorTests(w.user);
    SelectorTests(w.resource);
    TypesMissing(w.resource);
    error := false;
    if w.user * INDIVIDUAL_ID != {} && w.user * GROUP_ID != {} { error := true; }
    if w.user * INDIVIDUAL_ID != {} && w.user * ALL_ID != {} { error := true; }
    if w.user * GROUP_ID != {} && w.user * ALL_ID != {} { error := true; }
    if w.user * {32, 33, 34} == {} { error := true; }
    if Negative(IdOf(w.user)) { error := true; }
    if w.user * ALL_ID != {} && IdOf(w.user) != {} { error := true; }

    if w.resource * INDIVIDUAL_ID != {} && w.resource * GROUP_ID != {} { error := true; }
    if w.resource * INDIVIDUAL_ID != {} && w.resource * ALL_ID != {} { error := true; }
    if w.resource * GROUP_ID != {} && w.resource * ALL_ID != {} { error := true; }
    if w.resource * {32, 33, 34} == {} { error := true; }
    if Negative(IdOf(w.resource)) { error := true; }
    if w.resource * ALL_ID != {} && IdOf(w.resource) != {} { error := true; }
    if w.resource * Span(36, 44) == {} { error := true; }
    var foreign := w.resource * Span(44, 64);
    assert foreign == {} <==> forall b :: b in w.resource ==> b < 44 by {
      assert forall b :: b in w.resource && 44 <= b ==> b in foreign;
    }
    if foreign != {} { error := true; }

    if w.rights == {} { error := true; }
    if !AtMost15(w.rights) { error := true; }
  }

  // ---------------------------------------------------------------------------
  // The masks of `authorize`
  // ---------------------------------------------------------------------------

  datatype Masks = Masks(oidReq: Word, gidReq: Word, allReq: Word, rightsReq: Word, oidMask: Word, gidMask: Word)

  function RequestMasks(t: ObjectType, oid: Int32, gid: Int32, op: Operation): Masks {
    Masks(
      if !Negative(oid) then TypeCode(t) + INDIVIDUAL_ID + SignExtend(oid) else NONE_ID,
      if !Negative(gid) then TypeCode(t) + GROUP_ID + SignExtend(gid) else NONE_ID,
      TypeCode(t) + ALL_ID,
      RightCode(op),
      TypeCode(t) + INDIVIDUAL_ID + ID_MASK,
      TypeCode(t) + GROUP_ID + ID_MASK)
  }

  /** The test in the loop of `match_rules` (src/acl/AclManager.cc:350-363). */
  predicate MaskTest(w: RuleWords, m: Masks) {
    && w.rights * m.rightsReq == m.rightsReq
    && (|| w.resource * m.allReq == m.allReq
        || w.resource * m.gidMask == m.gidReq
        || w.resource * m.oidMask == m.oidReq)
  }

  /** The three keys under which `authorize` and `reverse_search` look rules up. */
  function UserKeys(uid: Int32, gid: Int32): seq<Word> {
    [ALL_ID, INDIVIDUAL_ID + SignExtend(uid), GROUP_ID + SignExtend(gid)]
  }

  /** What a key built from a selector and an id is, and when a word equals it. */
  lemma KeyOfSelector(user: Word, selector: Word, id: Int32)
    requires selector == INDIVIDUAL_ID || selector == GROUP_ID
    ensures user == selector + SignExtend(id) <==>
            IdOf(user) == id && user == (if Negative(id) then SignExtend(id) else selector + id)
  {
    assert IdOf(selector + SignExtend(id)) == id;
    if Negative(id) {
      assert selector + SignExtend(id) == SignExtend(id);
    }
  }

  lemma UserKeyMeaning(w: RuleWords, uid: Int32, gid: Int32)
    ensures w.user in UserKeys(uid, gid) <==> NamesUser(w, uid, gid)
  {
    var keys, id := UserKeys(uid, gid), IdOf(w.user);
    assert w.user in keys <==> w.user == keys[0] || w.user == keys[1] || w.user == keys[2];
    KeyOfSelector(w.user, INDIVIDUAL_ID, uid);
    KeyOfSelector(w.user, GROUP_ID, gid);
    assert 32 in INDIVIDUAL_ID && 33 in GROUP_ID && 34 in ALL_ID;
    WhoSelects(w.user);
    hide Who, SignExtend;
  }

  lemma WhoSelects(user: Word)
    ensures Any in Who(user) <==> user == ALL_ID
    ensures forall id: Int32 :: Single(id) in Who(user) <==>
              IdOf(user) == id && user == (if Negative(id) then SignExtend(id) else INDIVIDUAL_ID + id)
    ensures forall id: Int32 :: OfGroup(id) in Who(user) <==>
              IdOf(user) == id && user == (if Negative(id) then SignExtend(id) else GROUP_ID + id)
  {
    assert 32 in INDIVIDUAL_ID && 32 !in GROUP_ID && 33 in GROUP_ID && 33 !in INDIVIDUAL_ID;
    assert 32 !in ALL_ID && 33 !in ALL_ID && forall id: Int32 :: 32 !in id && 33 !in id;
    assert forall id: Int32 :: Negative(id) ==> 32 in SignExtend(id) && 33 in SignExtend(id);
  }

  lemma OneBit(word: Word, bit: int)
    requires 0 <= bit < 64
    ensures word * {bit} == {bit} <==> bit in word
  {
    assert bit in {bit};
  }

  lemma AllField(resource: Word, t: ObjectType)
    ensures resource * (TypeCode(t) + ALL_ID) == TypeCode(t) + ALL_ID <==> t in Types(resource) && Any in What(resource)
  {
    assert TypeBit(t) in TypeCode(t) + ALL_ID && 34 in TypeCode(t) + ALL_ID;
  }

  /** A type, a selector and an id compared in one go fall apart into the three comparisons. */
  lemma Field(resource: Word, t: ObjectType, selector: int, id: Int32)
    requires 32 <= selector < 34
    ensures resource * (TypeCode(t) + {selector} + ID_MASK)
            == (if !Negative(id) then TypeCode(t) + {selector} + SignExtend(id) else NONE_ID) <==>
            !Negative(id) && t in Types(resource) && selector in resource && IdOf(resource) == id
  {
    var mask, req := TypeCode(t) + {selector} + ID_MASK, TypeCode(t) + {selector} + id;
    if Negative(id) {
      assert 60 in NONE_ID && 60 !in mask;
    } else if resource * mask == req {
      assert TypeBit(t) in resource * mask && selector in resource * mask;
      assert IdOf(resource) == (resource * mask) * ID_MASK == id;
    }
  }

  /** A request built with NONE_ID matches no rule at all, well-formed or not. */
  lemma NoneNeverMatches(resource: Word, t: ObjectType)
    ensures resource * (TypeCode(t) + INDIVIDUAL_ID + ID_MASK) != NONE_ID
    ensures resource * (TypeCode(t) + GROUP_ID + ID_MASK) != NONE_ID
  {
    Field(resource, t, 32, {31});
    Field(resource, t, 33, {31});
  }

  lemma WhatBits(word: Word, id: Int32)
    ensures Any in What(word) <==> 34 in word
    ensures Single(id) in What(word) <==> 32 in word && IdOf(word) == id
    ensures OfGroup(id) in What(word) <==> 33 in word && IdOf(word) == id
  {
  }

  /** The mask test of one rule is the set meaning, for every rule and every object. */
  lemma MaskTestMeaning(w: RuleWords, t: ObjectType, oid: Int32, gid: Int32, op: Operation)
    ensures MaskTest(w, RequestMasks(t, oid, gid, op)) <==> NamesObject(w, t, oid, gid) && op in Rights(w.rights)
  {
    var m := RequestMasks(t, oid, gid, op);
    OneBit(w.rights, RightBit(op));
    assert w.resource * m.allReq == m.allReq <==> t in Types(w.resource) && 34 in w.resource by {
      AllField(w.resource, t);
    }
    assert w.resource * m.gidMask == m.gidReq <==>
           !Negative(gid) && t in Types(w.resource) && 33 in w.resource && IdOf(w.resource) == gid by {
      Field(w.resource, t, 33, gid);
    }
    assert w.resource * m.oidMask == m.oidReq <==>
           !Negative(oid) && t in Types(w.resource) && 32 in w.resource && IdOf(w.resource) == oid by {
      Field(w.resource, t, 32, oid);
    }
    WhatBits(w.resource, oid);
    WhatBits(w.resource, gid);
  }

  /** What `match_rules` tests for a rule found under one of the three keys is exactly Permits. */
  lemma MatchMeaning(w: RuleWords, q: Request)
    ensures w.user in UserKeys(q.uid, q.gid) && MaskTest(w, RequestMasks(q.t, q.oid, q.ogid, q.op)) <==> Permits(w, q)
  {
    UserKeyMeaning(w, q.uid, q.gid);
    MaskTestMeaning(w, q.t, q.oid, q.ogid, q.op);
  }

  // ---------------------------------------------------------------------------
  // The temporary rules of an object's permission bits (src/pool/PoolObjectAuth.cc)
  // ---------------------------------------------------------------------------

  /** Use, manage and admin bits for one class of users. */
  datatype Bits = Bits(u: bool, m: bool, a: bool)

  datatype ObjectAuth = ObjectAuth(
    t: ObjectType, oid: Int32, uid: Int32, gid: Int32, owner: Bits, group: Bits, other: Bits)

  function PermRights(b: Bits): Word {
    (if b.u then RightCode(USE) else {})
    + (if b.m then RightCode(MANAGE) else {})
    + (if b.a then RightCode(ADMIN) else {})
  }

  /** `PoolObjectAuth::get_acl_rules`. An object without an oid (-1) fills its resource word with ones. */
  function AclRulesOf(p: ObjectAuth): seq<RuleWords> {
    var resource := TypeCode(p.t) + INDIVIDUAL_ID + SignExtend(p.oid);
    [RuleWords(INDIVIDUAL_ID + SignExtend(p.uid), resource, PermRights(p.owner)),
     RuleWords(GROUP_ID + SignExtend(p.gid), resource, PermRights(p.group)),
     RuleWords(ALL_ID, resource, PermRights(p.other))]
  }

  predicate Grants(b: Bits, op: Operation) {
    match op
    case USE => b.u
    case MANAGE => b.m
    case ADMIN => b.a
    case CREATE => false
  }

  lemma PermRightsMeaning(b: Bits, op: Operation)
    ensures op in Rights(PermRights(b)) <==> Grants(b, op)
  {
    assert op in Rights(PermRights(b)) <==> RightBit(op) in PermRights(b);
  }

  lemma SelfNamed(w: RuleWords, t: ObjectType, oid: Int32, gid: Int32)
    requires w.resource == TypeCode(t) + INDIVIDUAL_ID + SignExtend(oid)
    ensures NamesObject(w, t, oid, gid)
  {
    assert TypeBit(t) in TypeCode(t) && 32 in INDIVIDUAL_ID;
    if Negative(oid) {
      assert 34 in SignExtend(oid);
    } else {
      assert IdOf(w.resource) == oid;
    }
  }

  /** The key of an id is looked up for the user or the group of that id; the key of a negative one, for both. */
  lemma KeysApart(uid: Int32, gid: Int32, other: Int32)
    ensures INDIVIDUAL_ID + SignExtend(other) in UserKeys(uid, gid) <==>
            other == uid || (Negative(other) && other == gid)
    ensures GROUP_ID + SignExtend(other) in UserKeys(uid, gid) <==>
            other == gid || (Negative(other) && other == uid)
  {
    var keys := UserKeys(uid, gid);
    assert forall k: Word :: k in keys <==> k == keys[0] || k == keys[1] || k == keys[2];
    var single, group := INDIVIDUAL_ID + SignExtend(other), GROUP_ID + SignExtend(other);
    KeyOfSelector(single, INDIVIDUAL_ID, uid);
    KeyOfSelector(single, GROUP_ID, gid);
    KeyOfSelector(group, INDIVIDUAL_ID, uid);
    KeyOfSelector(group, GROUP_ID, gid);
    KeyOfSelector(single, INDIVIDUAL_ID, other);
    KeyOfSelector(group, GROUP_ID, other);
    assert 32 in single && 33 in group && 32 !in ALL_ID && 33 !in ALL_ID;
    assert 33 !in INDIVIDUAL_ID + other && 32 !in GROUP_ID + other;
    hide SignExtend;
  }

  /** The owner's bits are for the owner, the group's for members of the group; ids below 0 are not told apart. */
  predicate Owns(p: ObjectAuth, uid: Int32, gid: Int32) {
    p.uid == uid || (Negative(p.uid) && p.uid == gid)
  }

  predicate SharesGroup(p: ObjectAuth, uid: Int32, gid: Int32) {
    p.gid == gid || (Negative(p.gid) && p.gid == uid)
  }

  /** A permission bit of the object grants the operation. */
  predicate BitsGrant(p: ObjectAuth, uid: Int32, gid: Int32, op: Operation) {
    || (Owns(p, uid, gid) && Grants(p.owner, op))
    || (SharesGroup(p, uid, gid) && Grants(p.group, op))
    || Grants(p.other, op)
  }

  lemma BitsNeverCreate(p: ObjectAuth, uid: Int32, gid: Int32)
    ensures !BitsGrant(p, uid, gid, CREATE)
  {
  }

  /**
   The three temporary rules together grant a request exactly when a permission bit does:
   the owner's for the owner, the group's for members of the object's group, others' for anybody.
   Creation is never granted by permission bits.
   */
  lemma PermissionBitsMeaning(p: ObjectAuth, uid: Int32, gid: Int32, op: Operation)
    ensures (exists w :: w in AclRulesOf(p) && w.user in UserKeys(uid, gid)
                         && MaskTest(w, RequestMasks(p.t, p.oid, p.gid, op)))
            <==> BitsGrant(p, uid, gid, op)
  {
    var rs := AclRulesOf(p);
    PermRightsMeaning(p.owner, op);
    PermRightsMeaning(p.group, op);
    PermRightsMeaning(p.other, op);
    KeysApart(uid, gid, p.uid);
    KeysApart(uid, gid, p.gid);
    assert UserKeys(uid, gid)[0] == ALL_ID;
    forall i | 0 <= i < 3
      ensures MaskTest(rs[i], RequestMasks(p.t, p.oid, p.gid, op)) <==> op in Rights(rs[i].rights)
    {
      SelfNamed(rs[i], p.t, p.oid, p.gid);
      MaskTestMeaning(rs[i], p.t, p.oid, p.gid, op);
    }
    assert forall w :: w in rs <==> w == rs[0] || w == rs[1] || w == rs[2];
    assert rs[0] in rs && rs[1] in rs && rs[2] in rs;
  }
}
