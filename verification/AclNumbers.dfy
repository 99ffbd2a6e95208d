/**
 The words of src/acl as the numbers of the source. `Number` gives a set of bits its value; it
 turns intersection and union into `&` and `|`, loses nothing, and gives every constant the value
 that the headers give it. So what is proved about words holds of the numbers, and the tests of
 `malformed` and of `authorize` can be read as they are written there.
 */
module AclNumbers {
  import opened AclRules
  import opened AclManagers

  function Bit(b: bool): nat {
    if b then 1 else 0
  }

  /** The value of the bits of a word from number `b` up, shifted down by `b`. */
  function Above(w: Word, b: nat): nat
    decreases 64 - b
  {
    if b >= 64 then 0 else Bit(b in w) + 2 * Above(w, b + 1)
  }

  /** The value of a word, read without a sign. */
  function Number(w: Word): nat {
    Above(w, 0)
  }

  function Pow(b: nat): nat {
    if b == 0 then 1 else 2 * Pow(b - 1)
  }

  function And(n: nat, m: nat): nat {
    if n == 0 || m == 0 then 0 else Bit(n % 2 == 1 && m % 2 == 1) + 2 * And(n / 2, m / 2)
  }

  function Or(n: nat, m: nat): nat {
    if n == 0 then m else if m == 0 then n else Bit(n % 2 == 1 || m % 2 == 1) + 2 * Or(n / 2, m / 2)
  }

  // ---------------------------------------------------------------------------
  // Sets of bits are numbers
  // ---------------------------------------------------------------------------

  lemma AboveStep(w: Word, i: nat)
    requires i < 64
    ensures Above(w, i) == Bit(i in w) + 2 * Above(w, i + 1)
    ensures Above(w, i) % 2 == Bit(i in w) && Above(w, i) / 2 == Above(w, i + 1)
  {
    assert Above(w, i) == Bit(i in w) + 2 * Above(w, i + 1);
    hide Above;
    Halves(Above(w, i), i in w, Above(w, i + 1));
  }

  lemma Halves(n: nat, b: bool, half: nat)
    requires n == Bit(b) + 2 * half
    ensures n % 2 == Bit(b) && n / 2 == half
  {
  }

  lemma {:induction false} AboveAnd(a: Word, b: Word, i: nat)
    requires i <= 64
    ensures And(Above(a, i), Above(b, i)) == Above(a * b, i)
    decreases 64 - i
  {
    if i < 64 {
      hide Above;
      AboveStep(a, i);
      AboveStep(b, i);
      AboveStep(a * b, i);
      AboveAnd(a, b, i + 1);
      AndStep(Above(a, i), Above(b, i));
    }
  }

  /** `And` digit by digit, also where it stops early. */
  lemma AndStep(n: nat, m: nat)
    ensures And(n, m) == Bit(n % 2 == 1 && m % 2 == 1) + 2 * And(n / 2, m / 2)
  {
  }

  lemma OrStep(n: nat, m: nat)
    ensures Or(n, m) == Bit(n % 2 == 1 || m % 2 == 1) + 2 * Or(n / 2, m / 2)
  {
  }

  lemma {:induction false} AboveOr(a: Word, b: Word, i: nat)
    requires i <= 64
    ensures Or(Above(a, i), Above(b, i)) == Above(a + b, i)
    decreases 64 - i
  {
    if i < 64 {
      hide Above;
      AboveStep(a, i);
      AboveStep(b, i);
      AboveStep(a + b, i);
      AboveOr(a, b, i + 1);
      OrStep(Above(a, i), Above(b, i));
    }
  }

  lemma {:induction false} AboveSum(a: Word, b: Word, i: nat)
    requires i <= 64 && a * b == {}
    ensures Above(a, i) + Above(b, i) == Above(a + b, i)
    decreases 64 - i
  {
    if i < 64 {
      hide Above;
      AboveStep(a, i);
      AboveStep(b, i);
      AboveStep(a + b, i);
      AboveSum(a, b, i + 1);
      assert i !in a * b;
    }
  }

  lemma {:induction false} AboveInjective(a: Word, b: Word, i: nat, c: nat)
    requires i <= c < 64 && Above(a, i) == Above(b, i)
    ensures c in a <==> c in b
    decreases c - i
  {
    hide Above;
    AboveStep(a, i);
    AboveStep(b, i);
    if i < c {
      AboveInjective(a, b, i + 1, c);
    }
  }

  /** `&` on numbers is intersection. */
  lemma NumberAnd(a: Word, b: Word)
    ensures And(Number(a), Number(b)) == Number(a * b)
  {
    AboveAnd(a, b, 0);
  }

  /** `|` on numbers is union, and addition where no bit is common. */
  lemma NumberOr(a: Word, b: Word)
    ensures Or(Number(a), Number(b)) == Number(a + b)
    ensures a * b == {} ==> Number(a) + Number(b) == Number(a + b)
  {
    AboveOr(a, b, 0);
    if a * b == {} { AboveSum(a, b, 0); }
  }

  /** Different words have different numbers. */
  lemma NumberInjective(a: Word, b: Word)
    ensures Number(a) == Number(b) <==> a == b
  {
    if Number(a) == Number(b) {
      forall c ensures c in a <==> c in b {
        if 0 <= c < 64 { AboveInjective(a, b, 0, c); }
      }
    }
  }

  lemma {:induction false} AboveBit(c: nat, i: nat)
    requires c < 64 && i <= 64
    ensures Above({c}, i) == if i <= c then Pow(c - i) else 0
    decreases 64 - i
  {
    if i < 64 { AboveBit(c, i + 1); }
  }

  lemma NumberOfBit(c: nat)
    requires c < 64
    ensures Number({c}) == Pow(c)
  {
    AboveBit(c, 0);
  }

  lemma {:induction false} AboveSpan(low: nat, high: nat, i: nat)
    requires low <= high <= 64 && i <= 64
    ensures Above(Span(low, high), i) ==
            if i <= low then Pow(high - i) - Pow(low - i) else if i <= high then Pow(high - i) - 1 else 0
    decreases 64 - i
  {
    if i < 64 {
      hide Above;
      AboveStep(Span(low, high), i);
      AboveSpan(low, high, i + 1);
      assert i in Span(low, high) <==> low <= i < high by { assert IsBit(i); }
    }
  }

  lemma NumberOfSpan(low: nat, high: nat)
    requires low <= high <= 64
    ensures Number(Span(low, high)) == Pow(high) - Pow(low)
  {
    hide Above, Pow;
    AboveSpan(low, high, 0);
  }

  lemma Pow8(b: nat)
    ensures Pow(b + 8) == 0x100 * Pow(b)
  {
    assert Pow(b + 8) == 2 * Pow(b + 7) == 4 * Pow(b + 6) == 8 * Pow(b + 5) == 16 * Pow(b + 4);
    assert Pow(b + 4) == 2 * Pow(b + 3) == 4 * Pow(b + 2) == 8 * Pow(b + 1) == 16 * Pow(b);
  }

  lemma Powers()
    ensures Pow(4) == 0x10 && Pow(31) == 0x80000000 && Pow(32) == 0x100000000 && Pow(33) == 0x200000000
    ensures Pow(34) == 0x400000000 && Pow(36) == 0x1000000000 && Pow(37) == 0x2000000000 && Pow(38) == 0x4000000000
    ensures Pow(39) == 0x8000000000 && Pow(40) == 0x10000000000 && Pow(41) == 0x20000000000
    ensures Pow(42) == 0x40000000000 && Pow(43) == 0x80000000000 && Pow(44) == 0x100000000000
    ensures Pow(60) == 0x1000000000000000 && Pow(63) == 0x8000000000000000 && Pow(64) == 0x10000000000000000
  {
    hide Pow;
    assert Pow(0) == 1 && Pow(1) == 2 && Pow(2) == 4 && Pow(3) == 8 && Pow(4) == 16 && Pow(7) == 128 by {
      SmallPowers();
    }
    forall b: nat ensures Pow(b + 8) == 0x100 * Pow(b) { Pow8(b); }
    assert Pow(8) == 0x100 && Pow(9) == 0x200 && Pow(10) == 0x400 && Pow(11) == 0x800 && Pow(12) == 0x1000;
    assert Pow(16) == 0x10000 && Pow(17) == 0x20000 && Pow(18) == 0x40000 && Pow(19) == 0x80000 && Pow(20) == 0x100000;
    assert Pow(24) == 0x1000000 && Pow(25) == 0x2000000 && Pow(26) == 0x4000000 && Pow(27) == 0x8000000;
    assert Pow(15) == 0x8000 && Pow(23) == 0x800000 && Pow(28) == 0x10000000 && Pow(31) == 0x80000000;
    assert Pow(32) == 0x100000000 && Pow(33) == 0x200000000 && Pow(34) == 0x400000000 && Pow(35) == 0x800000000;
    assert Pow(36) == 0x1000000000 && Pow(39) == 0x8000000000 && Pow(40) == 0x10000000000 && Pow(44) == 0x100000000000;
    assert Pow(47) == 0x800000000000 && Pow(52) == 0x10000000000000 && Pow(55) == 0x80000000000000;
    SmallGaps();
  }

  lemma SmallPowers()
    ensures Pow(0) == 1 && Pow(1) == 2 && Pow(2) == 4 && Pow(3) == 8 && Pow(4) == 16 && Pow(7) == 128
  {
  }

  lemma SmallGaps()
    ensures Pow(35) == 2 * Pow(34) && Pow(37) == 2 * Pow(36) && Pow(38) == 4 * Pow(36)
    ensures Pow(41) == 2 * Pow(40) && Pow(42) == 4 * Pow(40) && Pow(43) == 8 * Pow(40)
    ensures Pow(48) == 2 * Pow(47) && Pow(56) == 2 * Pow(55) && Pow(64) == 2 * Pow(63)
  {
  }

  // ---------------------------------------------------------------------------
  // The constants of the headers
  // ---------------------------------------------------------------------------

  function TypeNumber(t: ObjectType): nat {
    match t
    case VM => 0x1000000000
    case HOST => 0x2000000000
    case NET => 0x4000000000
    case IMAGE => 0x8000000000
    case USER => 0x10000000000
    case TEMPLATE => 0x20000000000
    case GROUP => 0x40000000000
    case ACL => 0x80000000000
  }

  function OperationNumber(op: Operation): nat {
    match op
    case USE => 0x1
    case MANAGE => 0x2
    case ADMIN => 0x4
    case CREATE => 0x8
  }

  lemma TypeNumbers(t: ObjectType)
    ensures Number(TypeCode(t)) == TypeNumber(t)
  {
    hide Number, Pow;
    NumberOfBit(TypeBit(t));
    Powers();
  }

  lemma OperationNumbers(op: Operation)
    ensures Number(RightCode(op)) == OperationNumber(op)
  {
    hide Number, Pow;
    NumberOfBit(RightBit(op));
    SmallPowers();
  }

  lemma SelectorNumbers()
    ensures Number(INDIVIDUAL_ID) == 0x100000000 && Number(GROUP_ID) == 0x200000000
    ensures Number(ALL_ID) == 0x400000000 && Number(NONE_ID) == 0x1000000000000000
    ensures Number(ID_MASK) == 0xFFFFFFFF && Number({}) == 0
  {
    hide Number, Pow;
    NumberOfBit(32);
    NumberOfBit(33);
    NumberOfBit(34);
    NumberOfBit(60);
    NumberOfSpan(0, 32);
    NumberOfNothing();
    SmallPowers();
    Powers();
  }

  lemma NumberOfNothing()
    ensures Number({}) == 0
  {
    hide Above;
    NoneAbove({}, 0);
  }

  // ---------------------------------------------------------------------------
  // Signed numbers
  // ---------------------------------------------------------------------------

  /** A C++ `int` in its 32 bits, and a `long long` in its 64. */
  function Signed32(n: nat): int {
    if n < 0x80000000 then n else n - 0x100000000
  }

  function Signed64(n: nat): int {
    if n < 0x8000000000000000 then n else n - 0x10000000000000000
  }

  function IntOf(i: Int32): int {
    Signed32(Number(i))
  }

  /** The 64 bits of an `int` that is widened. */
  function Widened(i: int): int {
    if i < 0 then i + 0x10000000000000000 else i
  }

  lemma {:induction false} AboveBelow(w: Word, top: nat, i: nat)
    requires i <= top <= 64 && forall b :: b in w ==> b < top
    ensures Above(w, i) < Pow(top - i) && (i < top ==> (Pow(top - i - 1) <= Above(w, i) <==> top - 1 in w))
    decreases 64 - i
  {
    if i < top {
      AboveBelow(w, top, i + 1);
    } else {
      NoneAbove(w, i);
    }
  }

  lemma {:induction false} NoneAbove(w: Word, i: nat)
    requires i <= 64
    ensures Above(w, i) == 0 <==> forall b :: b in w ==> b < i
    decreases 64 - i
  {
    if i < 64 { NoneAbove(w, i + 1); }
  }

  lemma NumberBelow(w: Word, top: nat)
    requires 0 < top <= 64 && forall b :: b in w ==> b < top
    ensures Number(w) < Pow(top) && (Pow(top - 1) <= Number(w) <==> top - 1 in w)
  {
    hide Above, Pow;
    AboveBelow(w, top, 0);
  }

  /** Widening an `int` keeps its value. */
  lemma WideningKeepsValue(i: Int32)
    ensures 0 <= Number(i) < 0x100000000 && (Negative(i) <==> IntOf(i) < 0)
    ensures Number(SignExtend(i)) == Widened(IntOf(i)) && Signed64(Number(SignExtend(i))) == IntOf(i)
  {
    hide Number, Pow, Or;
    NumberBelow(i, 32);
    Powers();
    if Negative(i) {
      HighHalf(i);
      NumberOr(i, Span(32, 64));
      NumberOfSpan(32, 64);
    }
  }

  lemma HighHalf(i: Int32)
    ensures i * Span(32, 64) == {}
  {
  }

  lemma SignOf(w: Word)
    ensures Number(w) < 0x10000000000000000 && (Signed64(Number(w)) < 0 <==> 63 in w)
  {
    hide Number, Pow;
    NumberBelow(w, 64);
    Powers();
  }

  // ---------------------------------------------------------------------------
  // The tests of the source
  // ---------------------------------------------------------------------------

  /** The tests of `malformed` that the user and the resource word share. */
  predicate IdPasses(n: nat) {
    && !(And(n, 0x100000000) != 0 && And(n, 0x200000000) != 0)
    && !(And(n, 0x100000000) != 0 && And(n, 0x400000000) != 0)
    && !(And(n, 0x200000000) != 0 && And(n, 0x400000000) != 0)
    && And(n, 0x700000000) != 0
    && !(Signed32(And(n, 0xFFFFFFFF)) < 0)
    && !(And(n, 0x400000000) != 0 && Signed32(And(n, 0xFFFFFFFF)) != 0)
  }

  predicate RulePasses(user: nat, resource: nat, rights: nat) {
    && IdPasses(user) && IdPasses(resource)
    && And(resource, 0xFF000000000) != 0
    && And(resource, 0xFFFFF00000000000) == 0
    && rights != 0
    && !(Signed64(rights) > 0xF)
  }

  lemma ZeroIsEmpty(w: Word)
    ensures Number(w) == 0 <==> w == {}
  {
    hide Number;
    NumberOfNothing();
    NumberInjective(w, {});
  }

  /** A mask finds nothing in a word exactly when the word has none of its bits. */
  lemma MaskNumber(w: Word, mask: Word)
    ensures And(Number(w), Number(mask)) == Number(w * mask)
    ensures And(Number(w), Number(mask)) == 0 <==> w * mask == {}
  {
    hide Number, And;
    NumberAnd(w, mask);
    ZeroIsEmpty(w * mask);
  }

  lemma SelectorMask()
    ensures Number({32, 33, 34}) == 0x700000000
  {
    assert {32, 33, 34} == Span(32, 35) by {
      assert IsBit(32) && IsBit(33) && IsBit(34);
      assert forall b :: b in Span(32, 35) <==> 32 <= b < 35;
    }
    hide Number, Pow;
    NumberOfSpan(32, 35);
    Powers();
    SmallGaps();
  }

  lemma ResourceMasks()
    ensures Number(Span(36, 44)) == 0xFF000000000 && Number(Span(44, 64)) == 0xFFFFF00000000000
  {
    hide Number, Pow;
    NumberOfSpan(36, 44);
    NumberOfSpan(44, 64);
    Powers();
  }

  lemma IdPassesMeaning(word: Word)
    ensures IdPasses(Number(word)) <==> OneSelector(word)
  {
    hide Number, And, OneSelector;
    SelectorNumbers();
    SelectorMask();
    SelectorTests(word);
    MaskNumber(word, INDIVIDUAL_ID);
    MaskNumber(word, GROUP_ID);
    MaskNumber(word, ALL_ID);
    MaskNumber(word, {32, 33, 34});
    MaskNumber(word, ID_MASK);
    WideningKeepsValue(IdOf(word));
    ZeroIsEmpty(IdOf(word));
  }

  lemma RightsPass(rights: Word)
    ensures Number(rights) != 0 && !(Signed64(Number(rights)) > 0xF) <==> rights != {} && AtMost15(rights)
  {
    hide Number;
    ZeroIsEmpty(rights);
    SignOf(rights);
    if 63 !in rights {
      FourBits(rights);
    }
  }

  lemma FourBits(w: Word)
    ensures Number(w) <= 15 <==> forall b :: b in w ==> b < 4
  {
    hide Above;
    AboveStep(w, 0);
    AboveStep(w, 1);
    AboveStep(w, 2);
    AboveStep(w, 3);
    NoneAbove(w, 4);
  }

  /** A rule is well-formed exactly when the tests of `malformed` pass on its three numbers. */
  lemma WellFormedInNumbers(w: RuleWords)
    ensures WellFormed(w) <==> RulePasses(Number(w.user), Number(w.resource), Number(w.rights))
  {
    hide Number, And, Types, OneSelector, AtMost15, IdPasses;
    IdPassesMeaning(w.user);
    IdPassesMeaning(w.resource);
    RightsPass(w.rights);
    ResourceMasks();
    MaskNumber(w.resource, Span(36, 44));
    MaskNumber(w.resource, Span(44, 64));
    TypesMissing(w.resource);
    NoForeign(w.resource);
  }

  lemma NoForeign(resource: Word)
    ensures resource * Span(44, 64) == {} <==> forall b :: b in resource ==> b < 44
  {
    var foreign := resource * Span(44, 64);
    if forall b :: b in resource ==> b < 44 {
      forall b ensures b !in foreign {}
      assert foreign == {};
    } else {
      var b :| b in resource && b >= 44;
      assert IsBit(b) && b in foreign;
    }
  }

  /** `authorize` for one rule, in the numbers of the source: the three keys and the three masked tests. */
  predicate GrantedBy(user: nat, resource: nat, rights: nat, uid: int, gid: int, t: nat, oid: int, ogid: int, op: nat)
    requires Widened(uid) >= 0 && Widened(gid) >= 0
  {
    && (|| user == 0x400000000
        || user == Or(0x100000000, Widened(uid))
        || user == Or(0x200000000, Widened(gid)))
    && And(rights, op) == op
    && (|| And(resource, Or(t, 0x400000000)) == Or(t, 0x400000000)
        || And(resource, Or(Or(t, 0x200000000), 0xFFFFFFFF))
           == (if ogid >= 0 then Or(Or(t, 0x200000000), ogid) else 0x1000000000000000)
        || And(resource, Or(Or(t, 0x100000000), 0xFFFFFFFF))
           == (if oid >= 0 then Or(Or(t, 0x100000000), oid) else 0x1000000000000000))
  }

  lemma KeysInNumbers(user: Word, uid: Int32, gid: Int32)
    ensures Widened(IntOf(uid)) >= 0 && Widened(IntOf(gid)) >= 0
    ensures user in UserKeys(uid, gid) <==>
            || Number(user) == 0x400000000
            || Number(user) == Or(0x100000000, Widened(IntOf(uid)))
            || Number(user) == Or(0x200000000, Widened(IntOf(gid)))
  {
    hide Number, Or, SignExtend, IntOf;
    var keys := UserKeys(uid, gid);
    assert user in keys <==> user == keys[0] || user == keys[1] || user == keys[2];
    SelectorNumbers();
    WideningKeepsValue(uid);
    WideningKeepsValue(gid);
    NumberOr(INDIVIDUAL_ID, SignExtend(uid));
    NumberOr(GROUP_ID, SignExtend(gid));
    NumberInjective(user, keys[0]);
    NumberInjective(user, keys[1]);
    NumberInjective(user, keys[2]);
  }

  /** One masked comparison of sets is the masked comparison of their numbers. */
  lemma MaskedEqual(word: Word, mask: Word, req: Word)
    ensures word * mask == req <==> And(Number(word), Number(mask)) == Number(req)
  {
    hide Number, And;
    NumberAnd(word, mask);
    NumberInjective(word * mask, req);
  }

  lemma FieldInNumbers(resource: Word, t: ObjectType, selector: Word, id: Int32, req: Word)
    requires req == if !Negative(id) then TypeCode(t) + selector + SignExtend(id) else NONE_ID
    ensures resource * (TypeCode(t) + selector + ID_MASK) == req <==>
            And(Number(resource), Or(Or(TypeNumber(t), Number(selector)), 0xFFFFFFFF))
            == if IntOf(id) >= 0 then Or(Or(TypeNumber(t), Number(selector)), IntOf(id)) else 0x1000000000000000
  {
    hide Number, And, Or, SignExtend, TypeCode, TypeNumber, IntOf;
    SelectorNumbers();
    TypeNumbers(t);
    WideningKeepsValue(id);
    NumberOr(TypeCode(t), selector);
    NumberOr(TypeCode(t) + selector, ID_MASK);
    NumberOr(TypeCode(t) + selector, SignExtend(id));
    MaskedEqual(resource, TypeCode(t) + selector + ID_MASK, req);
  }

  lemma MaskTestInNumbers(w: RuleWords, t: ObjectType, oid: Int32, gid: Int32, op: Operation)
    ensures MaskTest(w, RequestMasks(t, oid, gid, op)) <==>
            GrantedBy(0x400000000, Number(w.resource), Number(w.rights), 0, 0,
                      TypeNumber(t), IntOf(oid), IntOf(gid), OperationNumber(op))
  {
    hide Number, And, Or, SignExtend, TypeCode, TypeNumber, RightCode, OperationNumber, IntOf;
    var m := RequestMasks(t, oid, gid, op);
    SelectorNumbers();
    TypeNumbers(t);
    OperationNumbers(op);
    NumberOr(TypeCode(t), ALL_ID);
    MaskedEqual(w.rights, m.rightsReq, m.rightsReq);
    MaskedEqual(w.resource, m.allReq, m.allReq);
    FieldInNumbers(w.resource, t, GROUP_ID, gid, m.gidReq);
    FieldInNumbers(w.resource, t, INDIVIDUAL_ID, oid, m.oidReq);
  }

  /** What a rule permits is what the masked tests of the source say of its three numbers. */
  lemma PermitsInNumbers(w: RuleWords, q: Request)
    ensures Widened(IntOf(q.uid)) >= 0 && Widened(IntOf(q.gid)) >= 0
    ensures Permits(w, q) <==>
            GrantedBy(Number(w.user), Number(w.resource), Number(w.rights), IntOf(q.uid), IntOf(q.gid),
                      TypeNumber(q.t), IntOf(q.oid), IntOf(q.ogid), OperationNumber(q.op))
  {
    hide Permits, Number, MaskTest, RequestMasks, UserKeys, And, Or, IntOf, TypeNumber, OperationNumber;
    MatchMeaning(w, q);
    KeysInNumbers(w.user, q.uid, q.gid);
    MaskTestInNumbers(w, q.t, q.oid, q.ogid, q.op);
  }

  /** The two rules that a new installation gets: @1 VM+NET+IMAGE+TEMPLATE/ * CREATE and @1 HOST/ * MANAGE. */
  lemma DefaultNumbers()
    ensures IntOf({0}) == 1
    ensures Number(DEFAULT_CREATE.user) == 0x200000001 == Number(DEFAULT_DEPLOY.user)
    ensures Number(DEFAULT_CREATE.resource) == 0x400000000 + 0x1000000000 + 0x4000000000 + 0x8000000000 + 0x20000000000
    ensures Number(DEFAULT_DEPLOY.resource) == 0x400000000 + 0x2000000000
    ensures Number(DEFAULT_CREATE.rights) == 0x8 && Number(DEFAULT_DEPLOY.rights) == 0x2
  {
    hide Number, Or;
    SelectorNumbers();
    NumberOfBit(0);
    SmallPowers();
    NumberOr(GROUP_ID, {0});
    OperationNumbers(CREATE);
    OperationNumbers(MANAGE);
    TypeNumbers(VM);
    TypeNumbers(NET);
    TypeNumbers(IMAGE);
    TypeNumbers(TEMPLATE);
    TypeNumbers(HOST);
    NumberOr(ALL_ID, TypeCode(VM));
    NumberOr(ALL_ID + TypeCode(VM), TypeCode(NET));
    NumberOr(ALL_ID + TypeCode(VM) + TypeCode(NET), TypeCode(IMAGE));
    NumberOr(ALL_ID + TypeCode(VM) + TypeCode(NET) + TypeCode(IMAGE), TypeCode(TEMPLATE));
    NumberOr(ALL_ID, TypeCode(HOST));
  }

  /** The permission bits of an object in the rights of its temporary rules. */
  lemma PermRightsNumber(b: Bits)
    ensures Number(PermRights(b)) == (if b.u then 0x1 else 0) + (if b.m then 0x2 else 0) + if b.a then 0x4 else 0
  {
    hide Number, Or;
    var u: Word, m: Word := if b.u then RightCode(USE) else {}, if b.m then RightCode(MANAGE) else {};
    var a: Word := if b.a then RightCode(ADMIN) else {};
    SelectorNumbers();
    OperationNumbers(USE);
    OperationNumbers(MANAGE);
    OperationNumbers(ADMIN);
    assert u * m == {} && (u + m) * a == {};
    NumberOr(u, m);
    NumberOr(u + m, a);
  }
}
