/**
 Marshalling of vector attributes (src/common/Attribute.cc): a map of strings printed as
 `key=value` pieces with a separator between them, and the parser that reads such a string.
 */
module VectorAttributes {
  import opened Wrappers

  const MAGIC_SEP := "@^_^@"

  // ---------------------------------------------------------------------------
  // Searching, splitting, joining
  // ---------------------------------------------------------------------------

  predicate OccursAt(s: string, sep: string, i: int) {
    0 <= i && i + |sep| <= |s| && s[i..i + |sep|] == sep
  }

  /** `find(sep, from)`: the leftmost occurrence at or after `from`, or -1. */
  function Find(s: string, sep: string, from: nat): (p: int)
    requires from <= |s|
    ensures p == -1 || (from <= p && p + |sep| <= |s|)
    decreases |s| - from
  {
    if OccursAt(s, sep, from) then from
    else if from == |s| then -1
    else Find(s, sep, from + 1)
  }

  lemma {:induction false} FindLeast(s: string, sep: string, from: nat)
    requires from <= |s|
    ensures var p := Find(s, sep, from);
            && (p != -1 ==> OccursAt(s, sep, p))
            && forall i :: from <= i && (p == -1 || i < p) ==> !OccursAt(s, sep, i)
    decreases |s| - from
  {
    if !OccursAt(s, sep, from) && from < |s| {
      FindLeast(s, sep, from + 1);
    }
  }

  lemma FindIs(s: string, sep: string, from: nat, p: nat)
    requires from <= p <= |s| && OccursAt(s, sep, p)
    requires forall i :: from <= i < p ==> !OccursAt(s, sep, i)
    ensures Find(s, sep, from) == p
  {
    FindLeast(s, sep, from);
  }

  function Split(s: string, sep: string): (ps: seq<string>)
    requires sep != ""
    ensures ps != []
    decreases |s|
  {
    var p := Find(s, sep, 0);
    if p == -1 then [s] else [s[..p]] + Split(s[p + |sep|..], sep)
  }

  function Join(ps: seq<string>, sep: string): string
    requires ps != []
  {
    if |ps| == 1 then ps[0] else ps[0] + sep + Join(ps[1..], sep)
  }

  /** The separator does not occur in the piece. */
  ghost predicate Free(p: string, sep: string) {
    forall i :: !OccursAt(p, sep, i)
  }

  /** Followed by the separator, the piece shows it nowhere earlier. */
  ghost predicate Clean(p: string, sep: string) {
    forall i :: i < |p| ==> !OccursAt(p + sep, sep, i)
  }

  ghost predicate WellSeparated(ps: seq<string>, sep: string) {
    && ps != []
    && (forall i :: 0 <= i < |ps| - 1 ==> Clean(ps[i], sep))
    && Free(ps[|ps| - 1], sep)
  }

  lemma OccursInPrefix(s: string, t: string, sep: string, i: int)
    requires 0 <= i && i + |sep| <= |s|
    ensures OccursAt(s + t, sep, i) <==> OccursAt(s, sep, i)
  {
    assert (s + t)[i..i + |sep|] == s[i..i + |sep|];
  }

  /** Splitting yields well-separated pieces that join to the string again. */
  lemma {:induction false} SplitJoins(s: string, sep: string)
    requires sep != ""
    ensures WellSeparated(Split(s, sep), sep) && Join(Split(s, sep), sep) == s
    decreases |s|
  {
    hide Split, Find;
    var p := Find(s, sep, 0);
    FindLeast(s, sep, 0);
    SplitOnce(s, sep);
    if p != -1 {
      var rest := s[p + |sep|..];
      SplitJoins(rest, sep);
      assert s == s[..p] + sep + rest;
      FirstIsClean(s, sep, p);
      var qs := Split(rest, sep);
      assert ([s[..p]] + qs)[1..] == qs;
      MoreSeparated(s[..p], qs, sep);
    }
  }

  lemma MoreSeparated(p: string, ps: seq<string>, sep: string)
    requires Clean(p, sep) && WellSeparated(ps, sep)
    ensures WellSeparated([p] + ps, sep)
  {
    hide Clean, Free;
    assert forall i :: 0 < i <= |ps| ==> ([p] + ps)[i] == ps[i - 1];
  }

  lemma FirstIsClean(s: string, sep: string, p: nat)
    requires p + |sep| <= |s| && OccursAt(s, sep, p) && forall i :: 0 <= i < p ==> !OccursAt(s, sep, i)
    ensures Clean(s[..p], sep)
  {
    var rest := s[p + |sep|..];
    assert s == s[..p] + sep + rest;
    forall i | i < p ensures !OccursAt(s[..p] + sep, sep, i) {
      if 0 <= i { OccursInPrefix(s[..p] + sep, rest, sep, i); }
    }
  }

  /** And they are the only such pieces: splitting undoes joining exactly then. */
  lemma {:induction false} SplitOfJoin(ps: seq<string>, sep: string)
    requires sep != "" && ps != []
    ensures Split(Join(ps, sep), sep) == ps <==> WellSeparated(ps, sep)
    decreases |ps|
  {
    hide Split, Find;
    var s := Join(ps, sep);
    if !WellSeparated(ps, sep) {
      SplitJoins(s, sep);
    } else if |ps| == 1 {
      FindLeast(s, sep, 0);
      SplitOnce(s, sep);
      assert ps == [s];
    } else {
      FirstPieceEnds(ps, sep);
      SplitOnce(s, sep);
      TailSeparated(ps, sep);
      SplitOfJoin(ps[1..], sep);
      hide WellSeparated, Join;
      assert ps == [ps[0]] + ps[1..];
    }
  }

  lemma TailSeparated(ps: seq<string>, sep: string)
    requires |ps| > 1 && WellSeparated(ps, sep)
    ensures WellSeparated(ps[1..], sep)
  {
  }

  /** A clean first piece ends at the first separator, and the other pieces follow it. */
  lemma FirstPieceEnds(ps: seq<string>, sep: string)
    requires sep != "" && |ps| > 1 && Clean(ps[0], sep)
    ensures var s := Join(ps, sep);
            && Find(s, sep, 0) == |ps[0]| && |ps[0]| + |sep| <= |s|
            && s[..|ps[0]|] == ps[0] && s[|ps[0]| + |sep|..] == Join(ps[1..], sep)
  {
    hide Find;
    var s, rest := Join(ps, sep), Join(ps[1..], sep);
    assert s == (ps[0] + sep) + rest;
    assert OccursAt(s, sep, |ps[0]|) by { assert s[|ps[0]|..|ps[0]| + |sep|] == sep; }
    forall i | 0 <= i < |ps[0]| ensures !OccursAt(s, sep, i) {
      OccursInPrefix(ps[0] + sep, rest, sep, i);
    }
    FindIs(s, sep, 0, |ps[0]|);
  }

  /** Default separator: a piece is clean when it neither holds it nor ends in all of it but the last character. */
  lemma CleanForMagic(p: string)
    ensures Clean(p, MAGIC_SEP) <==> Free(p, MAGIC_SEP) && !(|p| >= 4 && p[|p| - 4..] == "@^_^")
  {
    var s := p + MAGIC_SEP;
    if |p| >= 4 && p[|p| - 4..] == "@^_^" {
      assert s[|p| - 4..|p| + 1] == p[|p| - 4..] + [s[|p|]];
      assert OccursAt(s, MAGIC_SEP, |p| - 4);
    }
    if i :| OccursAt(p, MAGIC_SEP, i) {
      OccursInPrefix(p, MAGIC_SEP, MAGIC_SEP, i);
      assert OccursAt(s, MAGIC_SEP, i) && i < |p|;
    }
    if i :| OccursAt(s, MAGIC_SEP, i) && i < |p| {
      var t := s[i..i + 5];
      assert t[0] == '@' && t[1] == '^' && t[2] == '_' && t[3] == '^' && t[4] == '@';
      assert forall d :: 0 <= d < 5 ==> t[d] == s[i + d];
      if i + 5 <= |p| {
        OccursInPrefix(p, MAGIC_SEP, MAGIC_SEP, i);
      } else {
        assert s[|p|] == '@' && s[|p| + 1] == '^' && s[|p| + 2] == '_' && s[|p| + 3] == '^';
        assert i == |p| - 4;
        assert p[|p| - 4..] == s[i..i + 4] == t[..4] == "@^_^";
      }
    }
  }

  // ---------------------------------------------------------------------------
  // Pieces and bindings
  // ---------------------------------------------------------------------------

  function Piece(key: string, value: string): string {
    key + "=" + value
  }

  /** A piece read back: split at its first `=`; nothing without one. */
  function Parse(p: string): Option<(string, string)> {
    var m := Find(p, "=", 0);
    if m == -1 then None else Some((p[..m], p[m + 1..]))
  }

  lemma EqualsSign(p: string)
    ensures forall i :: OccursAt(p, "=", i) <==> 0 <= i < |p| && p[i] == '='
  {
    forall i | 0 <= i < |p| ensures OccursAt(p, "=", i) <==> p[i] == '=' {
      assert p[i..i + 1] == [p[i]];
    }
  }

  lemma ParseMeaning(p: string, key: string, value: string)
    ensures Parse(p) == Some((key, value)) <==> p == Piece(key, value) && '=' !in key
  {
    var m := Find(p, "=", 0);
    FindLeast(p, "=", 0);
    EqualsSign(p);
    if p == Piece(key, value) && '=' !in key {
      assert p[|key|] == '=';
      assert forall i :: 0 <= i < |key| ==> p[i] == key[i];
      assert m == |key| && p[..m] == key && p[m + 1..] == value;
    }
    if Parse(p) == Some((key, value)) {
      assert p == p[..m] + [p[m]] + p[m + 1..];
      assert forall i :: 0 <= i < |key| ==> key[i] == p[i];
    }
  }

  lemma ParseNothing(p: string)
    ensures Parse(p) == None <==> '=' !in p
  {
    EqualsSign(p);
    var m := Find(p, "=", 0);
    FindLeast(p, "=", 0);
    if m == -1 {
      forall i | 0 <= i < |p| ensures p[i] != '=' {
        assert !OccursAt(p, "=", i);
      }
    }
  }

  /** `map::insert`: a key that is present keeps its value. */
  function BindOne(m: map<string, string>, p: string): map<string, string> {
    match Parse(p)
    case None => m
    case Some((key, value)) => if key in m then m else m[key := value]
  }

  function Bind(m: map<string, string>, ps: seq<string>): map<string, string>
    decreases |ps|
  {
    if ps == [] then m else Bind(BindOne(m, ps[0]), ps[1..])
  }

  /** Piece number `i` is the first one that binds the key. */
  ghost predicate FirstBinds(ps: seq<string>, i: int, key: string, value: string) {
    && 0 <= i < |ps|
    && Parse(ps[i]) == Some((key, value))
    && forall j :: 0 <= j < i && Parse(ps[j]).Some? ==> Parse(ps[j]).value.0 != key
  }

  /** The first binding of a key wins, and a key that was there before keeps its value. */
  lemma {:induction false} BindMeaning(m: map<string, string>, ps: seq<string>, key: string, value: string)
    ensures key in Bind(m, ps) && Bind(m, ps)[key] == value <==>
            if key in m then m[key] == value else exists i :: FirstBinds(ps, i, key, value)
    decreases |ps|
  {
    if ps != [] {
      var next := BindOne(m, ps[0]);
      BindMeaning(next, ps[1..], key, value);
      if key !in m {
        if key in next {
          assert Parse(ps[0]) == Some((key, next[key]));
          if i :| FirstBinds(ps, i, key, value) {
            assert i == 0;
          }
          if next[key] == value {
            assert FirstBinds(ps, 0, key, value);
          }
        } else {
          if i :| FirstBinds(ps, i, key, value) {
            assert FirstBinds(ps[1..], i - 1, key, value);
          }
          if i :| FirstBinds(ps[1..], i, key, value) {
            assert forall j :: 0 < j <= i ==> ps[j] == ps[1..][j - 1];
            assert FirstBinds(ps, i + 1, key, value);
          }
        }
      }
    }
  }

  // ---------------------------------------------------------------------------
  // The round trip
  // ---------------------------------------------------------------------------

  /** The order of `std::map<string, string>`. */
  predicate Less(a: string, b: string) {
    b != "" && (a == "" || a[0] < b[0] || (a[0] == b[0] && Less(a[1..], b[1..])))
  }

  /** The order of characters at the first place where the strings differ; a proper prefix comes first. */
  lemma {:induction false} LessMeaning(a: string, b: string)
    ensures Less(a, b) <==>
            exists i :: FirstDifference(a, b, i) && if i < |a| then i < |b| && a[i] < b[i] else i < |b|
  {
    if a == [] || b == [] || a[0] != b[0] {
      assert FirstDifference(a, b, 0) || a == b == [];
      forall i | FirstDifference(a, b, i) ensures i == 0 {}
    } else {
      LessMeaning(a[1..], b[1..]);
      forall i | FirstDifference(a[1..], b[1..], i) ensures FirstDifference(a, b, i + 1) {
        assert forall j :: 0 < j < i + 1 ==> a[j] == a[1..][j - 1] && b[j] == b[1..][j - 1];
      }
      forall i | FirstDifference(a, b, i) ensures i > 0 && FirstDifference(a[1..], b[1..], i - 1) {}
    }
  }

  /** The strings agree below place `i`, and at it one of them ends or they differ. */
  predicate FirstDifference(a: string, b: string, i: int) {
    && 0 <= i <= |a| && i <= |b|
    && (forall j :: 0 <= j < i ==> a[j] == b[j])
    && (i < |a| && i < |b| ==> a[i] != b[i])
  }

  /** The keys of the map, each once, in the order of iteration. */
  ghost predicate InOrder(ks: seq<string>, m: map<string, string>) {
    && (forall k :: k in ks <==> k in m)
    && (forall i, j :: 0 <= i < j < |ks| ==> Less(ks[i], ks[j]))
  }

  function Pieces(m: map<string, string>, ks: seq<string>): (ps: seq<string>)
    requires forall k :: k in ks ==> k in m
    ensures |ps| == |ks| && forall i :: 0 <= i < |ks| ==> ps[i] == Piece(ks[i], m[ks[i]])
  {
    seq(|ks|, i requires 0 <= i < |ks| => Piece(ks[i], m[ks[i]]))
  }

  lemma {:induction false} LessIrreflexive(a: string)
    ensures !Less(a, a)
  {
    if a != "" { LessIrreflexive(a[1..]); }
  }

  lemma {:induction false} LessTransitive(a: string, b: string, c: string)
    requires Less(a, b) && Less(b, c)
    ensures Less(a, c)
  {
    if a != "" && a[0] == b[0] && b[0] == c[0] { LessTransitive(a[1..], b[1..], c[1..]); }
  }

  lemma {:induction false} LessTotal(a: string, b: string)
    ensures Less(a, b) || a == b || Less(b, a)
  {
    if a != "" && b != "" && a[0] == b[0] {
      LessTotal(a[1..], b[1..]);
      assert a == [a[0]] + a[1..] && b == [b[0]] + b[1..];
    }
  }

  /** There is only one such order, so a marshalled string depends on the map alone. */
  lemma {:induction false} InOrderUnique(ks: seq<string>, ls: seq<string>, m: map<string, string>)
    requires InOrder(ks, m) && InOrder(ls, m)
    ensures ks == ls
    decreases |ks|
  {
    if ks == [] || ls == [] {
      assert forall k :: k in ks <==> k in ls;
      NoMore(ks, ls);
      NoMore(ls, ks);
    } else {
      var k, l := ks[0], ls[0];
      assert k in ls && l in ks;
      LessIrreflexive(k);
      if k != l {
        LessTransitive(k, l, k);
      }
      InOrderDistinct(ks, m);
      InOrderDistinct(ls, m);
      TailInOrder(ks, m);
      TailInOrder(ls, m);
      InOrderUnique(ks[1..], ls[1..], m - {k});
      assert ks == [k] + ks[1..] && ls == [k] + ls[1..];
    }
  }

  lemma NoMore(ks: seq<string>, ls: seq<string>)
    requires forall k :: k in ls ==> k in ks
    ensures ks == [] ==> ls == []
  {
    if ls != [] {
      assert ls[0] in ls && ls[0] in ks;
      var i :| 0 <= i < |ks| && ks[i] == ls[0];
    }
  }

  lemma TailInOrder(ks: seq<string>, m: map<string, string>)
    requires InOrder(ks, m) && Distinct(ks) && ks != []
    ensures InOrder(ks[1..], m - {ks[0]})
  {
    forall k ensures k in ks[1..] <==> k in m - {ks[0]} {
      assert k in ks <==> k == ks[0] || k in ks[1..];
    }
  }

  lemma InOrderDistinct(ks: seq<string>, m: map<string, string>)
    requires InOrder(ks, m)
    ensures Distinct(ks)
  {
    forall i, j | 0 <= i < j < |ks| ensures ks[i] != ks[j] {
      LessIrreflexive(ks[i]);
    }
  }

  function Weight(ps: seq<string>, n: nat): nat {
    if ps == [] then 0 else |ps[0]| + n + Weight(ps[1..], n)
  }

  lemma {:induction false} JoinLength(ps: seq<string>, sep: string)
    requires ps != []
    ensures |Join(ps, sep)| + |sep| == Weight(ps, |sep|)
  {
    if |ps| == 1 {
      assert ps[1..] == [];
    } else {
      JoinLength(ps[1..], sep);
    }
  }

  lemma {:induction false} WeightWithout(ps: seq<string>, i: int, n: nat)
    requires 0 <= i < |ps|
    ensures Weight(ps, n) == |ps[i]| + n + Weight(ps[..i] + ps[i + 1..], n)
  {
    var rest := ps[..i] + ps[i + 1..];
    if i == 0 {
      assert rest == ps[1..];
    } else {
      WeightWithout(ps[1..], i - 1, n);
      assert rest[0] == ps[0] && rest[1..] == ps[1..][..i - 1] + ps[1..][i..];
    }
  }

  /** Different pieces that all occur in another list weigh no more than that list. */
  lemma {:induction false} WeightOfPart(ps: seq<string>, qs: seq<string>, n: nat)
    requires Distinct(ps)
    requires forall p :: p in ps ==> p in qs
    ensures Weight(ps, n) <= Weight(qs, n)
    decreases |ps|
  {
    if ps != [] {
      assert ps[0] in ps && ps[0] in qs;
      var i :| 0 <= i < |qs| && qs[i] == ps[0];
      var rest := qs[..i] + qs[i + 1..];
      forall p | p in ps[1..] ensures p in rest {
        var j :| 0 <= j < |ps[1..]| && ps[1..][j] == p;
        assert ps[0] != ps[j + 1] && ps[j + 1] in ps && p in qs;
        var l :| 0 <= l < |qs| && qs[l] == p;
        assert rest[if l < i then l else l - 1] == p;
      }
      WeightOfPart(ps[1..], rest, n);
      WeightWithout(qs, i, n);
    }
  }

  /** Reading back the pieces of a map gives the map, if no key holds a `=`. */
  lemma BindPieces(m: map<string, string>, ks: seq<string>)
    requires forall k :: k in ks <==> k in m
    requires Distinct(ks)
    requires forall k :: k in m ==> '=' !in k
    ensures Bind(map[], Pieces(m, ks)) == m
  {
    hide Parse, Bind, Piece;
    var ps := Pieces(m, ks);
    var b := Bind(map[], ps);
    PiecesParse(m, ks);
    forall k | k in m ensures k in b && b[k] == m[k] {
      var i :| 0 <= i < |ks| && ks[i] == k;
      assert FirstBinds(ps, i, k, m[k]);
      BindMeaning(map[], ps, k, m[k]);
    }
    forall k | k in b ensures k in m {
      BindMeaning(map[], ps, k, b[k]);
      var i :| FirstBinds(ps, i, k, b[k]);
      assert ks[i] in ks;
    }
  }

  /** The pieces that the parser finds, `qs`, agree with those printed, from piece `j` on. */
  lemma {:induction false} PiecesAgree(m: map<string, string>, ks: seq<string>, qs: seq<string>, sep: string, j: nat)
    requires sep != ""
    requires (forall k :: k in ks <==> k in m) && Distinct(ks)
    requires forall k :: k in m ==> '=' !in k
    requires j < |ks| && j < |qs|
    requires qs[..j] == Pieces(m, ks)[..j]
    requires qs[j..] == Split(Join(Pieces(m, ks)[j..], sep), sep)
    requires Bind(map[], qs) == m
    ensures qs == Pieces(m, ks)
    decreases |ks| - j
  {
    hide Parse, Bind, Piece, Find;
    var ps := Pieces(m, ks);
    var s := Join(ps[j..], sep);
    var p := Find(s, sep, 0);
    SplitOnce(s, sep);
    FirstPiece(ps[j..], sep);
    if p != -1 && p < |ps[j]| {
      assert qs[j] == qs[j..][0] == ps[j][..p];
      SplitJoins(s, sep);
      NoShorterPiece(m, ks, qs, sep, j, p);
      assert false;
    } else if j < |ks| - 1 {
      assert qs[j] == qs[j..][0] == ps[j];
      assert qs[j..][1..] == qs[j + 1..] && ps[j..][1..] == ps[j + 1..];
      assert qs[..j + 1] == qs[..j] + [qs[j]] && ps[..j + 1] == ps[..j] + [ps[j]];
      PiecesAgree(m, ks, qs, sep, j + 1);
    } else {
      assert ps[j..] == [ps[j]] && qs[j..] == [ps[j]];
      assert qs == qs[..j] + qs[j..] && ps == ps[..j] + ps[j..];
    }
  }

  /** The first separator of joined pieces lies in the first piece or right behind it. */
  lemma FirstPiece(ps: seq<string>, sep: string)
    requires sep != "" && ps != []
    ensures var s, p := Join(ps, sep), Find(Join(ps, sep), sep, 0);
            && |s| >= |ps[0]| && s[..|ps[0]|] == ps[0]
            && (p != -1 && p < |ps[0]| ==> s[..p] == ps[0][..p])
            && (|ps| == 1 ==> p == -1 || p < |ps[0]|)
            && (|ps| > 1 ==> p != -1 && p <= |ps[0]|)
            && (|ps| > 1 && p == |ps[0]| ==> s[p + |sep|..] == Join(ps[1..], sep))
  {
    var s, p := Join(ps, sep), Find(Join(ps, sep), sep, 0);
    FindLeast(s, sep, 0);
    if |ps| > 1 {
      assert s == ps[0] + sep + Join(ps[1..], sep);
      assert OccursAt(s, sep, |ps[0]|) by { assert s[|ps[0]|..|ps[0]| + |sep|] == sep; }
    }
  }

  /** The parser cannot have cut piece `j` short and still have recovered the map. */
  lemma NoShorterPiece(m: map<string, string>, ks: seq<string>, qs: seq<string>, sep: string, j: nat, p: nat)
    requires sep != ""
    requires (forall k :: k in ks <==> k in m) && Distinct(ks)
    requires forall k :: k in m ==> '=' !in k
    requires j < |ks| && j < |qs|
    requires qs[..j] == Pieces(m, ks)[..j]
    requires Join(qs[j..], sep) == Join(Pieces(m, ks)[j..], sep)
    requires p < |Pieces(m, ks)[j]| && qs[j] == Pieces(m, ks)[j][..p]
    ensures Bind(map[], qs) != m
  {
    PiecesParse(m, ks);
    assert forall i :: 0 <= i < j ==> qs[i] == qs[..j][i] == Pieces(m, ks)[i];
    if p > |ks[j]| {
      ShorterValue(m, ks, qs, j, p);
    } else {
      ShorterKey(m, ks, qs, sep, j, p);
    }
  }

  lemma PiecesParse(m: map<string, string>, ks: seq<string>)
    requires forall k :: k in ks ==> k in m && '=' !in k
    ensures forall i :: 0 <= i < |ks| ==> Parse(Pieces(m, ks)[i]) == Some((ks[i], m[ks[i]]))
  {
    forall i | 0 <= i < |ks| ensures Parse(Pieces(m, ks)[i]) == Some((ks[i], m[ks[i]])) {
      assert ks[i] in ks;
      ParseMeaning(Pieces(m, ks)[i], ks[i], m[ks[i]]);
    }
  }

  /** Cut inside the value: the key is bound to a shorter value, and first bindings win. */
  lemma ShorterValue(m: map<string, string>, ks: seq<string>, qs: seq<string>, j: nat, p: nat)
    requires Distinct(ks) && j < |ks| && j < |qs|
    requires forall k :: k in ks ==> k in m && '=' !in k
    requires forall l :: 0 <= l < j ==> Parse(qs[l]) == Some((ks[l], m[ks[l]]))
    requires |ks[j]| < p < |Piece(ks[j], m[ks[j]])| && qs[j] == Piece(ks[j], m[ks[j]])[..p]
    ensures Bind(map[], qs) != m
  {
    var value := m[ks[j]][..p - |ks[j]| - 1];
    assert qs[j] == Piece(ks[j], value);
    ParseMeaning(qs[j], ks[j], value);
    assert FirstBinds(qs, j, ks[j], value);
    BindMeaning(map[], qs, ks[j], value);
  }

  /** Cut inside the key: nothing is bound there, and the later text is too short for all later pairs. */
  lemma ShorterKey(m: map<string, string>, ks: seq<string>, qs: seq<string>, sep: string, j: nat, p: nat)
    requires sep != ""
    requires (forall k :: k in ks <==> k in m) && Distinct(ks) && j < |ks| && j < |qs|
    requires forall k :: k in ks ==> '=' !in k
    requires forall l :: 0 <= l < j ==> Parse(qs[l]) == Some((ks[l], m[ks[l]]))
    requires p <= |ks[j]| && qs[j] == Piece(ks[j], m[ks[j]])[..p]
    requires Join(qs[j..], sep) == Join(Pieces(m, ks)[j..], sep)
    ensures Bind(map[], qs) != m
  {
    var ps := Pieces(m, ks);
    assert ks[j] in ks && qs[j] == ks[j][..p];
    ParseNothing(qs[j]);
    PiecesParse(m, ks);
    TooHeavy(m, ks, qs, sep, j);
    var i :| j <= i < |ks| && ps[i] !in qs[j + 1..];
    if Bind(map[], qs) == m {
      LaterPiece(m, ks, qs, j, i);
      assert false;
    }
  }

  /** The pieces from `j` on cannot all occur after place `j` of a list that joins to the same string. */
  lemma TooHeavy(m: map<string, string>, ks: seq<string>, qs: seq<string>, sep: string, j: nat)
    requires sep != ""
    requires (forall k :: k in ks ==> k in m && '=' !in k) && Distinct(ks) && j < |ks| && j < |qs|
    requires Join(qs[j..], sep) == Join(Pieces(m, ks)[j..], sep)
    ensures exists i :: j <= i < |ks| && Pieces(m, ks)[i] !in qs[j + 1..]
  {
    var ps := Pieces(m, ks);
    var late := ps[j..];
    PiecesParse(m, ks);
    forall a, b | 0 <= a < b < |late| ensures late[a] != late[b] {
      assert ks[j + a] != ks[j + b];
      assert Parse(ps[j + a]).value.0 == ks[j + a] && Parse(ps[j + b]).value.0 == ks[j + b];
    }
    JoinLength(late, sep);
    JoinLength(qs[j..], sep);
    assert qs[j..][1..] == qs[j + 1..] && qs[j..][0] == qs[j];
    if forall i :: j <= i < |ks| ==> ps[i] in qs[j + 1..] {
      assert forall q :: q in late ==> q in qs[j + 1..];
      WeightOfPart(late, qs[j + 1..], |sep|);
      assert false;
    }
  }

  /** If the map was recovered although piece `j` binds nothing, every later pair was found later. */
  lemma LaterPiece(m: map<string, string>, ks: seq<string>, qs: seq<string>, j: nat, i: nat)
    requires (forall k :: k in ks <==> k in m) && Distinct(ks)
    requires j <= i < |ks| && j < |qs|
    requires forall l :: 0 <= l < j ==> Parse(qs[l]) == Some((ks[l], m[ks[l]]))
    requires Parse(qs[j]) == None
    requires Bind(map[], qs) == m
    ensures Piece(ks[i], m[ks[i]]) in qs[j + 1..]
  {
    hide Parse, Bind, Piece, OccursAt;
    assert ks[i] in ks;
    BindMeaning(map[], qs, ks[i], m[ks[i]]);
    var l :| FirstBinds(qs, l, ks[i], m[ks[i]]);
    ParseMeaning(qs[l], ks[i], m[ks[i]]);
    NotEarlier(m, ks, qs, j, i, l);
    InTail(qs, j, l);
  }

  lemma NotEarlier(m: map<string, string>, ks: seq<string>, qs: seq<string>, j: nat, i: nat, l: nat)
    requires Distinct(ks) && j <= i < |ks| && j < |qs| && l < |qs|
    requires forall k :: k in ks ==> k in m
    requires forall n :: 0 <= n < j ==> Parse(qs[n]) == Some((ks[n], m[ks[n]]))
    requires Parse(qs[j]) == None && Parse(qs[l]) == Some((ks[i], m[ks[i]]))
    ensures j < l
  {
  }

  lemma InTail(qs: seq<string>, j: nat, l: nat)
    requires j < l < |qs|
    ensures qs[l] in qs[j + 1..]
  {
    assert qs[j + 1..][l - j - 1] == qs[l];
  }

  /** No key that the parser binds holds a `=`. */
  lemma BoundKeys(qs: seq<string>, key: string)
    requires key in Bind(map[], qs)
    ensures '=' !in key
  {
    var value := Bind(map[], qs)[key];
    BindMeaning(map[], qs, key, value);
    var i :| FirstBinds(qs, i, key, value);
    ParseMeaning(qs[i], key, value);
  }

  /**
   Unmarshalling into an empty attribute gives back a non-empty map exactly when no key holds a
   `=`, no piece but the last shows the separator early once it is followed by one, and the last
   piece does not hold the separator.
   */
  lemma RoundTrip(m: map<string, string>, ks: seq<string>, sep: string)
    requires sep != "" && m != map[]
    requires InOrder(ks, m)
    ensures ks != []
    ensures Bind(map[], Split(Join(Pieces(m, ks), sep), sep)) == m <==>
            (forall k :: k in m ==> '=' !in k) && WellSeparated(Pieces(m, ks), sep)
  {
    NotEmpty(m, ks);
    InOrderDistinct(ks, m);
    var ps := Pieces(m, ks);
    var qs := Split(Join(ps, sep), sep);
    SplitOfJoin(ps, sep);
    if Bind(map[], qs) == m {
      forall k | k in m ensures '=' !in k {
        BoundKeys(qs, k);
      }
      assert ps[0..] == ps && qs[0..] == qs;
      PiecesAgree(m, ks, qs, sep, 0);
    }
    if (forall k :: k in m ==> '=' !in k) && WellSeparated(ps, sep) {
      BindPieces(m, ks);
    }
  }

  lemma NotEmpty(m: map<string, string>, ks: seq<string>)
    requires forall k :: k in ks <==> k in m
    ensures ks == [] ==> m == map[]
  {
  }

  // ---------------------------------------------------------------------------
  // The attribute
  // ---------------------------------------------------------------------------

  function Separator(sep: Option<string>): string {
    match sep case None => MAGIC_SEP case Some(s) => s
  }

  method LeastKey(m: map<string, string>, rest: set<string>) returns (k: string)
    requires rest <= m.Keys && |rest| > 0
    ensures k in rest && forall l :: l in rest && l != k ==> Less(k, l)
  {
    k :| k in rest;
    var others := rest - {k};
    while |others| > 0
      invariant k in rest && others <= rest && k !in others
      invariant forall l :: l in rest - others && l != k ==> Less(k, l)
      decreases |others|
    {
      var l :| l in others;
      LessTotal(k, l);
      if Less(l, k) {
        forall x | x in rest - others && x != k ensures Less(l, x) { LessTransitive(l, k, x); }
        k := l;
      }
      others := others - {l};
    }
  }

  lemma {:induction false} JoinMore(ps: seq<string>, p: string, sep: string)
    requires ps != []
    ensures Join(ps + [p], sep) == Join(ps, sep) + sep + p
  {
    assert (ps + [p])[1..] == ps[1..] + [p];
    if |ps| == 1 {
      assert ps[1..] == [];
    } else {
      JoinMore(ps[1..], p, sep);
    }
  }

  /** The keys met so far, in order, and those still to come. */
  ghost predicate Visited(ks: seq<string>, rest: set<string>, m: map<string, string>) {
    && rest <= m.Keys
    && (forall k :: k in ks <==> k in m && k !in rest)
    && (forall i, j :: 0 <= i < j < |ks| ==> Less(ks[i], ks[j]))
    && (forall k, l :: k in ks && l in rest ==> Less(k, l))
  }

  lemma VisitNext(ks: seq<string>, rest: set<string>, m: map<string, string>, k: string)
    requires Visited(ks, rest, m)
    requires k in rest && forall l :: l in rest && l != k ==> Less(k, l)
    ensures Visited(ks + [k], rest - {k}, m)
  {
    hide Less;
    forall i, j | 0 <= i < j < |ks + [k]| ensures Less((ks + [k])[i], (ks + [k])[j]) {
      if j == |ks| { assert ks[i] in ks; }
    }
  }

  lemma PiecesMore(m: map<string, string>, ks: seq<string>, k: string, sep: string)
    requires ks != [] && k in m && forall l :: l in ks ==> l in m
    ensures Join(Pieces(m, ks + [k]), sep) == Join(Pieces(m, ks), sep) + sep + Piece(k, m[k])
  {
    JoinMore(Pieces(m, ks), Piece(k, m[k]), sep);
    assert Pieces(m, ks + [k]) == Pieces(m, ks) + [Piece(k, m[k])];
  }

  lemma JoinOne(ps: seq<string>, sep: string)
    requires |ps| == 1
    ensures Join(ps, sep) == ps[0]
  {
  }

  class VectorAttribute {
    var attributeValue: map<string, string>

    /** No string at all for an empty attribute; the joined pieces in key order otherwise. */
    method Marshall(sep: Option<string>) returns (rs: Option<string>)
      ensures rs == None <==> attributeValue == map[]
      ensures attributeValue != map[] ==>
                var used := match sep case None => "@^_^@" case Some(given) => given;
                exists ks :: && InOrder(ks, attributeValue) && ks != []
                             && rs == Some(Join(Pieces(attributeValue, ks), used))
      ensures attributeValue != map[] ==>
                exists ks :: && InOrder(ks, attributeValue) && ks != []
                             && rs == Some(Join(Pieces(attributeValue, ks), Separator(sep)))
    {
      hide Less, Join, Piece, Pieces;
      var mySep := Separator(sep);
      if |attributeValue| == 0 {
        return None;
      }
      var rest := attributeValue.Keys;
      var it := LeastKey(attributeValue, rest);
      var os := Piece(it, attributeValue[it]);
      VisitNext([], rest, attributeValue, it);
      rest := rest - {it};
      ghost var ks := [it];
      JoinOne(Pieces(attributeValue, ks), mySep);
      while |rest| > 0
        invariant ks != [] && Visited(ks, rest, attributeValue)
        invariant os == Join(Pieces(attributeValue, ks), mySep)
        decreases |rest|
      {
        it := LeastKey(attributeValue, rest);
        os := os + mySep + Piece(it, attributeValue[it]);
        PiecesMore(attributeValue, ks, it, mySep);
        VisitNext(ks, rest, attributeValue, it);
        rest := rest - {it};
        ks := ks + [it];
      }
      assert rest == {};
      rs := Some(os);
    }

    /** The loop splits at the leftmost separators and binds the pieces in their order. */
    method Unmarshall(sattr: string, sep: Option<string>)
      requires Separator(sep) != ""
      modifies this
      ensures attributeValue == Bind(old(attributeValue), Split(sattr, Separator(sep)))
      ensures forall given :: sep == Some(given) ==> attributeValue == Bind(old(attributeValue), Split(sattr, given))
      ensures sep == None ==> attributeValue == Bind(old(attributeValue), Split(sattr, "@^_^@"))
    {
      hide Bind, Split, OccursAt, BindOne;
      var mySep := Separator(sep);
      var bpos, cont := 0, true;
      ghost var goal := Bind(attributeValue, Split(sattr, mySep));
      assert sattr[0..] == sattr;
      while cont
        invariant 0 <= bpos <= |sattr|
        invariant cont ==> Bind(attributeValue, Split(sattr[bpos..], mySep)) == goal
        invariant !cont ==> attributeValue == goal
        decreases cont, |sattr| - bpos
      {
        SplitStep(attributeValue, sattr, mySep, bpos);
        var epos := Find(sattr, mySep, bpos);
        var tmp;
        if epos == -1 {
          tmp := sattr[bpos..];
          cont := false;
        } else {
          tmp := sattr[bpos..epos];
          bpos := epos + |mySep|;
        }
        BindPiece(tmp);
      }
    }

    /** The rest of the loop body: one piece is bound, or passed over if it has no `=`. */
    method BindPiece(tmp: string)
      modifies this
      ensures attributeValue == BindOne(old(attributeValue), tmp)
    {
      var mpos := Find(tmp, "=", 0);
      if mpos == -1 {
        return;
      }
      Assign(tmp[..mpos], if mpos + 1 == |tmp| then "" else tmp[mpos + 1..]);
    }

    /** `insert(make_pair(name, value))` */
    method Assign(name: string, value: string)
      modifies this
      ensures attributeValue ==
              if name in old(attributeValue) then old(attributeValue) else old(attributeValue)[name := value]
    {
      if name !in attributeValue {
        attributeValue := attributeValue[name := value];
      }
    }
  }

  lemma SplitOnce(s: string, sep: string)
    requires sep != ""
    ensures var p := Find(s, sep, 0);
            Split(s, sep) == if p == -1 then [s] else [s[..p]] + Split(s[p + |sep|..], sep)
  {
  }

  lemma SplitRest(s: string, sep: string, bpos: nat)
    requires sep != "" && bpos <= |s|
    ensures var epos := Find(s, sep, bpos);
            Split(s[bpos..], sep) ==
            if epos == -1 then [s[bpos..]] else [s[bpos..epos]] + Split(s[epos + |sep|..], sep)
  {
    hide Split, Find, OccursAt;
    var epos := Find(s, sep, bpos);
    FindInRest(s, sep, bpos);
    if epos == -1 {
      SplitOnce(s[bpos..], sep);
    } else {
      SplitAt(s[bpos..], s[bpos..epos], s[epos + |sep|..], sep);
    }
  }

  /** A string that shows its first separator behind `head` splits into `head` and the pieces of the rest. */
  lemma SplitAt(s: string, head: string, rest: string, sep: string)
    requires sep != "" && Find(s, sep, 0) == |head| && |s| == |head| + |sep| + |rest|
    requires forall i :: 0 <= i < |head| ==> s[i] == head[i]
    requires forall i :: 0 <= i < |rest| ==> s[|head| + |sep| + i] == rest[i]
    ensures Split(s, sep) == [head] + Split(rest, sep)
  {
    hide Split, Find;
    SplitOnce(s, sep);
    assert s[..|head|] == head;
    assert s[|head| + |sep|..] == rest;
  }

  lemma BindFirst(m: map<string, string>, p: string, ps: seq<string>)
    ensures Bind(m, [p] + ps) == Bind(BindOne(m, p), ps) && Bind(m, [p]) == BindOne(m, p)
  {
    hide BindOne;
    assert ([p] + ps)[1..] == ps && [p][1..] == [];
  }

  /** One turn of the parser: the first piece of what is left is bound, and the rest follows its separator. */
  lemma SplitStep(m: map<string, string>, s: string, sep: string, bpos: nat)
    requires sep != "" && bpos <= |s|
    ensures var epos := Find(s, sep, bpos);
            Bind(m, Split(s[bpos..], sep)) ==
            if epos == -1 then BindOne(m, s[bpos..])
            else Bind(BindOne(m, s[bpos..epos]), Split(s[epos + |sep|..], sep))
  {
    hide Bind, BindOne, Split;
    SplitRest(s, sep, bpos);
    var epos := Find(s, sep, bpos);
    if epos == -1 {
      BindFirst(m, s[bpos..], []);
    } else {
      BindFirst(m, s[bpos..epos], Split(s[epos + |sep|..], sep));
    }
  }

  lemma OccursInRest(s: string, sep: string, from: nat, i: int)
    requires from <= |s| && 0 <= i
    ensures OccursAt(s[from..], sep, i) <==> OccursAt(s, sep, from + i)
  {
    if from + i + |sep| <= |s| {
      assert s[from..][i..i + |sep|] == s[from + i..from + i + |sep|];
    }
  }

  lemma FindInRest(s: string, sep: string, from: nat)
    requires from <= |s|
    ensures Find(s[from..], sep, 0) == if Find(s, sep, from) == -1 then -1 else Find(s, sep, from) - from
  {
    var p, q := Find(s, sep, from), Find(s[from..], sep, 0);
    FindLeast(s, sep, from);
    FindLeast(s[from..], sep, 0);
    if p != -1 { OccursInRest(s, sep, from, p - from); }
    if q != -1 { OccursInRest(s, sep, from, q); }
  }

  /** Through the objects: what one attribute marshals, an empty one reads back under the same condition. */
  method MarshallThenUnmarshall(a: VectorAttribute, b: VectorAttribute, sep: Option<string>)
    requires a != b && Separator(sep) != ""
    requires a.attributeValue != map[] && b.attributeValue == map[]
    modifies b
    ensures exists ks :: InOrder(ks, a.attributeValue) &&
              (b.attributeValue == a.attributeValue <==>
               && (forall k :: k in a.attributeValue ==> '=' !in k)
               && WellSeparated(Pieces(a.attributeValue, ks), Separator(sep)))
  {
    hide Join, Pieces, WellSeparated;
    var rs := a.Marshall(sep);
    ghost var ks :| && InOrder(ks, a.attributeValue) && ks != []
                    && rs == Some(Join(Pieces(a.attributeValue, ks), Separator(sep)));
    b.Unmarshall(rs.value, sep);
    RoundTrip(a.attributeValue, ks, Separator(sep));
  }
}
