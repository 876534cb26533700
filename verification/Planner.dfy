/** Join planning: whatever plan is chosen, it computes the join it was given. */
module Planner {
  import opened Basics
  import opened HashJoin
  import opened Sql
  import opened Resolve

  // ----- The join a query asks for -----

  datatype Outcome = Match(l: Row, r: Row) | LeftRow(l: Row) | RightRow(r: Row)

  predicate Matches(kl: KeyOf, kr: KeyOf, l: Row, r: Row) {
    kl(l).Some? && kl(l) == kr(r)
  }

  function MatchesOf(l: Row, rs: seq<Row>, kl: KeyOf, kr: KeyOf): seq<Outcome> {
    if rs == [] then []
    else
      var n := |rs| - 1;
      MatchesOf(l, rs[..n], kl, kr) + (if Matches(kl, kr, l, rs[n]) then [Match(l, rs[n])] else [])
  }

  /** The pairs with equal keys, of the whole product. */
  function AllMatches(ls: seq<Row>, rs: seq<Row>, kl: KeyOf, kr: KeyOf): seq<Outcome> {
    if ls == [] then [] else MatchesOf(ls[0], rs, kl, kr) + AllMatches(ls[1..], rs, kl, kr)
  }

  function LoneLefts(ls: seq<Row>, rs: seq<Row>, kl: KeyOf, kr: KeyOf): seq<Outcome> {
    if ls == [] then []
    else
      var n := |ls| - 1;
      LoneLefts(ls[..n], rs, kl, kr)
      + (if exists i | 0 <= i < |rs| :: Matches(kl, kr, ls[n], rs[i]) then [] else [LeftRow(ls[n])])
  }

  function LoneRights(ls: seq<Row>, rs: seq<Row>, kl: KeyOf, kr: KeyOf): seq<Outcome> {
    if rs == [] then []
    else
      var n := |rs| - 1;
      LoneRights(ls, rs[..n], kl, kr)
      + (if exists i | 0 <= i < |ls| :: Matches(kl, kr, ls[i], rs[n]) then [] else [RightRow(rs[n])])
  }

  /** The joined table: all matches, and the rows of a preserved side without one. */
  function Reference(ls: seq<Row>, rs: seq<Row>, kl: KeyOf, kr: KeyOf, jt: JoinType): seq<Outcome> {
    AllMatches(ls, rs, kl, kr)
    + (if jt == Left then LoneLefts(ls, rs, kl, kr) else [])
    + (if jt == Right then LoneRights(ls, rs, kl, kr) else [])
  }

  // ----- How often each joined row occurs -----

  lemma {:induction false} MatchesOfCount(l: Row, rs: seq<Row>, kl: KeyOf, kr: KeyOf, o: Outcome)
    ensures multiset(MatchesOf(l, rs, kl, kr))[o] ==
            if o.Match? && o.l == l && Matches(kl, kr, l, o.r) then multiset(rs)[o.r] else 0
  {
    if rs != [] {
      var n := |rs| - 1;
      MatchesOfCount(l, rs[..n], kl, kr, o);
      assert rs == rs[..n] + [rs[n]];
    }
  }

  lemma {:induction false} AllMatchesCount(ls: seq<Row>, rs: seq<Row>, kl: KeyOf, kr: KeyOf, o: Outcome)
    ensures multiset(AllMatches(ls, rs, kl, kr))[o] ==
            if o.Match? && Matches(kl, kr, o.l, o.r) then multiset(ls)[o.l] * multiset(rs)[o.r] else 0
  {
    hide MatchesOf, Matches;
    if ls != [] {
      AllMatchesCount(ls[1..], rs, kl, kr, o);
      MatchesOfCount(ls[0], rs, kl, kr, o);
      if o.Match? {
        assert multiset(ls)[o.l] == (if ls[0] == o.l then 1 else 0) + multiset(ls[1..])[o.l] by {
          assert ls == [ls[0]] + ls[1..];
        }
        OneMore(multiset(ls[1..])[o.l], multiset(rs)[o.r]);
      }
    }
  }

  lemma OneMore(a: nat, b: nat)
    ensures (1 + a) * b == a * b + b
  {
  }

  lemma {:induction false} LoneLeftsCount(ls: seq<Row>, rs: seq<Row>, kl: KeyOf, kr: KeyOf, o: Outcome)
    ensures multiset(LoneLefts(ls, rs, kl, kr))[o] ==
            if o.LeftRow? && forall i | 0 <= i < |rs| :: !Matches(kl, kr, o.l, rs[i]) then multiset(ls)[o.l] else 0
  {
    hide Matches;
    if ls != [] {
      var n := |ls| - 1;
      LoneLeftsCount(ls[..n], rs, kl, kr, o);
      assert ls == ls[..n] + [ls[n]];
    }
  }

  lemma {:induction false} LoneRightsCount(ls: seq<Row>, rs: seq<Row>, kl: KeyOf, kr: KeyOf, o: Outcome)
    ensures multiset(LoneRights(ls, rs, kl, kr))[o] ==
            if o.RightRow? && forall i | 0 <= i < |ls| :: !Matches(kl, kr, ls[i], o.r) then multiset(rs)[o.r] else 0
  {
    hide Matches;
    if rs != [] {
      var n := |rs| - 1;
      LoneRightsCount(ls, rs[..n], kl, kr, o);
      assert rs == rs[..n] + [rs[n]];
    }
  }

  // ----- Either side may be the build side -----

  function Orient(j: Joined, leftIsBuild: bool): Outcome {
    match j
    case Both(b, p) => if leftIsBuild then Match(b, p) else Match(p, b)
    case BuildOnly(b) => if leftIsBuild then LeftRow(b) else RightRow(b)
    case ProbeOnly(p) => if leftIsBuild then RightRow(p) else LeftRow(p)
  }

  function Unorient(o: Outcome, leftIsBuild: bool): Joined {
    match o
    case Match(l, r) => if leftIsBuild then Both(l, r) else Both(r, l)
    case LeftRow(l) => if leftIsBuild then BuildOnly(l) else ProbeOnly(l)
    case RightRow(r) => if leftIsBuild then ProbeOnly(r) else BuildOnly(r)
  }

  function OrientAll(js: seq<Joined>, leftIsBuild: bool): (os: seq<Outcome>)
    ensures |os| == |js|
    ensures forall i | 0 <= i < |js| :: os[i] == Orient(js[i], leftIsBuild)
  {
    seq(|js|, i requires 0 <= i < |js| => Orient(js[i], leftIsBuild))
  }

  lemma OrientIff(j: Joined, leftIsBuild: bool, o: Outcome)
    ensures Orient(j, leftIsBuild) == o <==> j == Unorient(o, leftIsBuild)
  {
  }

  lemma {:induction false} OrientCount(js: seq<Joined>, leftIsBuild: bool, o: Outcome)
    ensures multiset(OrientAll(js, leftIsBuild))[o] == multiset(js)[Unorient(o, leftIsBuild)]
  {
    hide Orient, Unorient;
    if js != [] {
      var n := |js| - 1;
      OrientCount(js[..n], leftIsBuild, o);
      assert js == js[..n] + [js[n]];
      assert OrientAll(js, leftIsBuild) == OrientAll(js[..n], leftIsBuild) + [Orient(js[n], leftIsBuild)];
      OrientIff(js[n], leftIsBuild, o);
    }
  }

  lemma OrientBag(a: seq<Joined>, b: seq<Joined>, leftIsBuild: bool)
    requires multiset(a) == multiset(b)
    ensures multiset(OrientAll(a, leftIsBuild)) == multiset(OrientAll(b, leftIsBuild))
  {
    forall o ensures multiset(OrientAll(a, leftIsBuild))[o] == multiset(OrientAll(b, leftIsBuild))[o] {
      OrientCount(a, leftIsBuild, o);
      OrientCount(b, leftIsBuild, o);
    }
  }

  lemma OrientConcat(a: seq<Joined>, b: seq<Joined>, leftIsBuild: bool)
    ensures OrientAll(a + b, leftIsBuild) == OrientAll(a, leftIsBuild) + OrientAll(b, leftIsBuild)
  {
  }

  /** The matches of one right row with all left rows. */
  function MatchesWith(ls: seq<Row>, r: Row, kl: KeyOf, kr: KeyOf): seq<Outcome> {
    if ls == [] then []
    else
      var n := |ls| - 1;
      MatchesWith(ls[..n], r, kl, kr) + (if Matches(kl, kr, ls[n], r) then [Match(ls[n], r)] else [])
  }

  function AllMatchesByRight(ls: seq<Row>, rs: seq<Row>, kl: KeyOf, kr: KeyOf): seq<Outcome> {
    if rs == [] then [] else MatchesWith(ls, rs[0], kl, kr) + AllMatchesByRight(ls, rs[1..], kl, kr)
  }

  function MatchOne(l: Row, r: Row, kl: KeyOf, kr: KeyOf): seq<Outcome> {
    if Matches(kl, kr, l, r) then [Match(l, r)] else []
  }

  lemma MatchesOfSnoc(l: Row, rs: seq<Row>, r: Row, kl: KeyOf, kr: KeyOf)
    ensures MatchesOf(l, rs + [r], kl, kr) == MatchesOf(l, rs, kl, kr) + MatchOne(l, r, kl, kr)
  {
    assert (rs + [r])[..|rs|] == rs;
  }

  lemma MatchesWithSnoc(ls: seq<Row>, l: Row, r: Row, kl: KeyOf, kr: KeyOf)
    ensures MatchesWith(ls + [l], r, kl, kr) == MatchesWith(ls, r, kl, kr) + MatchOne(l, r, kl, kr)
  {
    assert (ls + [l])[..|ls|] == ls;
  }

  lemma {:induction false} MatchesOfFront(l: Row, rs: seq<Row>, kl: KeyOf, kr: KeyOf)
    requires rs != []
    ensures MatchesOf(l, rs, kl, kr) == MatchOne(l, rs[0], kl, kr) + MatchesOf(l, rs[1..], kl, kr)
  {
    hide MatchesOf, MatchOne;
    var n := |rs| - 1;
    assert rs == rs[..n] + [rs[n]];
    MatchesOfSnoc(l, rs[..n], rs[n], kl, kr);
    if n > 0 {
      MatchesOfFront(l, rs[..n], kl, kr);
      assert rs[1..] == rs[..n][1..] + [rs[n]];
      MatchesOfSnoc(l, rs[..n][1..], rs[n], kl, kr);
    } else {
      assert rs[1..] == [] && rs[..n] == [];
      NoMatches(l, kl, kr);
    }
  }

  lemma {:induction false} MatchesWithFront(ls: seq<Row>, r: Row, kl: KeyOf, kr: KeyOf)
    requires ls != []
    ensures MatchesWith(ls, r, kl, kr) == MatchOne(ls[0], r, kl, kr) + MatchesWith(ls[1..], r, kl, kr)
  {
    hide MatchesWith, MatchOne;
    var n := |ls| - 1;
    assert ls == ls[..n] + [ls[n]];
    MatchesWithSnoc(ls[..n], ls[n], r, kl, kr);
    if n > 0 {
      MatchesWithFront(ls[..n], r, kl, kr);
      assert ls[1..] == ls[..n][1..] + [ls[n]];
      MatchesWithSnoc(ls[..n][1..], ls[n], r, kl, kr);
    } else {
      assert ls[1..] == [] && ls[..n] == [];
      NoMatchesWith(r, kl, kr);
    }
  }

  lemma NoMatchesWith(r: Row, kl: KeyOf, kr: KeyOf)
    ensures MatchesWith([], r, kl, kr) == []
  {
  }

  /** Taking the first left row out of a join grouped by right rows. */
  lemma {:induction false} PeelLeft(ls: seq<Row>, rs: seq<Row>, kl: KeyOf, kr: KeyOf)
    requires ls != []
    ensures multiset(AllMatchesByRight(ls, rs, kl, kr))
         == multiset(MatchesOf(ls[0], rs, kl, kr)) + multiset(AllMatchesByRight(ls[1..], rs, kl, kr))
  {
    hide MatchOne, MatchesOf, MatchesWith;
    if rs == [] {
      NoMatches(ls[0], kl, kr);
    } else {
      PeelLeft(ls, rs[1..], kl, kr);
      MatchesWithFront(ls, rs[0], kl, kr);
      MatchesOfFront(ls[0], rs, kl, kr);
    }
  }

  lemma NoMatches(l: Row, kl: KeyOf, kr: KeyOf)
    ensures MatchesOf(l, [], kl, kr) == []
  {
  }

  /** Row-major and column-major give the same bag. */
  lemma {:induction false} Transpose(ls: seq<Row>, rs: seq<Row>, kl: KeyOf, kr: KeyOf)
    ensures multiset(AllMatches(ls, rs, kl, kr)) == multiset(AllMatchesByRight(ls, rs, kl, kr))
  {
    hide MatchesOf, MatchesWith;
    if ls == [] {
      NoLefts(rs, kl, kr);
    } else {
      Transpose(ls[1..], rs, kl, kr);
      PeelLeft(ls, rs, kl, kr);
    }
  }

  lemma {:induction false} NoLefts(rs: seq<Row>, kl: KeyOf, kr: KeyOf)
    ensures AllMatchesByRight([], rs, kl, kr) == []
  {
    if rs != [] {
      NoLefts(rs[1..], kl, kr);
    }
  }

  lemma PairsConcat(a: seq<Row>, b: seq<Row>, p: Row, leftIsBuild: bool)
    ensures OrientAll(Pairs(a + b, p), leftIsBuild)
            == OrientAll(Pairs(a, p), leftIsBuild) + OrientAll(Pairs(b, p), leftIsBuild)
  {
  }

  lemma WithKeyAppend(rows: seq<Row>, row: Row, key: KeyOf, k: Option<string>)
    ensures WithKey(rows + [row], key, k) == WithKey(rows, key, k) + (if key(row) == k then [row] else [])
  {
    assert (rows + [row])[..|rows|] == rows;
  }

  lemma {:induction false} HitsOfLeft(l: Row, rs: seq<Row>, kl: KeyOf, kr: KeyOf)
    ensures MatchesOf(l, rs, kl, kr)
         == if kl(l).Some? then OrientAll(Pairs(WithKey(rs, kr, kl(l)), l), false) else []
  {
    if rs != [] {
      hide WithKey, MatchesOf, OrientAll;
      var n := |rs| - 1;
      var init, r := rs[..n], rs[n];
      assert rs == init + [r];
      HitsOfLeft(l, init, kl, kr);
      MatchesOfSnoc(l, init, r, kl, kr);
      WithKeyAppend(init, r, kr, kl(l));
      var hit := if kr(r) == kl(l) then [r] else [];
      PairsConcat(WithKey(init, kr, kl(l)), hit, l, false);
      OnePair(r, l, false);
    }
  }

  lemma OnePair(b: Row, p: Row, leftIsBuild: bool)
    ensures OrientAll(Pairs([b], p), leftIsBuild) == [if leftIsBuild then Match(b, p) else Match(p, b)]
    ensures OrientAll(Pairs([], p), leftIsBuild) == []
  {
  }

  lemma {:induction false} HitsOfRight(ls: seq<Row>, r: Row, kl: KeyOf, kr: KeyOf)
    ensures MatchesWith(ls, r, kl, kr)
         == if kr(r).Some? then OrientAll(Pairs(WithKey(ls, kl, kr(r)), r), true) else []
  {
    if ls != [] {
      hide WithKey, MatchesWith, OrientAll;
      var n := |ls| - 1;
      var init, l := ls[..n], ls[n];
      assert ls == init + [l];
      HitsOfRight(init, r, kl, kr);
      MatchesWithSnoc(init, l, r, kl, kr);
      WithKeyAppend(init, l, kl, kr(r));
      var hit := if kl(l) == kr(r) then [l] else [];
      PairsConcat(WithKey(init, kl, kr(r)), hit, r, true);
      OnePair(l, r, true);
    }
  }

  function LoneLeft(l: Row, rs: seq<Row>, kl: KeyOf, kr: KeyOf): seq<Outcome> {
    if exists i | 0 <= i < |rs| :: Matches(kl, kr, l, rs[i]) then [] else [LeftRow(l)]
  }

  function LoneRight(ls: seq<Row>, r: Row, kl: KeyOf, kr: KeyOf): seq<Outcome> {
    if exists i | 0 <= i < |ls| :: Matches(kl, kr, ls[i], r) then [] else [RightRow(r)]
  }

  lemma LoneLeftsSnoc(ls: seq<Row>, l: Row, rs: seq<Row>, kl: KeyOf, kr: KeyOf)
    ensures LoneLefts(ls + [l], rs, kl, kr) == LoneLefts(ls, rs, kl, kr) + LoneLeft(l, rs, kl, kr)
  {
    assert (ls + [l])[..|ls|] == ls;
  }

  lemma LoneRightsSnoc(ls: seq<Row>, rs: seq<Row>, r: Row, kl: KeyOf, kr: KeyOf)
    ensures LoneRights(ls, rs + [r], kl, kr) == LoneRights(ls, rs, kl, kr) + LoneRight(ls, r, kl, kr)
  {
    assert (rs + [r])[..|rs|] == rs;
  }

  lemma ProbeLeft(l: Row, rs: seq<Row>, kl: KeyOf, kr: KeyOf, jt: JoinType)
    ensures OrientAll(ProbeOut(rs, kr, kl, jt, l), false)
         == MatchesOf(l, rs, kl, kr) + (if jt == Left then LoneLeft(l, rs, kl, kr) else [])
  {
    hide WithKey, MatchesOf, OrientAll, Pairs;
    HitsOfLeft(l, rs, kl, kr);
    assert OrientAll([ProbeOnly(l)], false) == [LeftRow(l)];
    NothingOriented(false);
    if kl(l).None? || WithKey(rs, kr, kl(l)) == [] {
      assert forall i | 0 <= i < |rs| :: !Matches(kl, kr, l, rs[i]);
      OnePair(l, l, false);
    } else {
      var i :| 0 <= i < |rs| && kr(rs[i]) == kl(l);
      assert Matches(kl, kr, l, rs[i]);
    }
  }

  lemma ProbeRight(ls: seq<Row>, r: Row, kl: KeyOf, kr: KeyOf, jt: JoinType)
    ensures OrientAll(ProbeOut(ls, kl, kr, jt, r), true)
         == MatchesWith(ls, r, kl, kr) + (if jt == Left then LoneRight(ls, r, kl, kr) else [])
  {
    hide WithKey, MatchesWith, OrientAll, Pairs;
    HitsOfRight(ls, r, kl, kr);
    assert OrientAll([ProbeOnly(r)], true) == [RightRow(r)];
    NothingOriented(true);
    if kr(r).None? || WithKey(ls, kl, kr(r)) == [] {
      assert forall i | 0 <= i < |ls| :: !Matches(kl, kr, ls[i], r);
      OnePair(r, r, true);
    } else {
      var i :| 0 <= i < |ls| && kl(ls[i]) == kr(r);
      assert Matches(kl, kr, ls[i], r);
    }
  }

  lemma {:induction false} LoneLeftsFront(ls: seq<Row>, rs: seq<Row>, kl: KeyOf, kr: KeyOf)
    requires ls != []
    ensures LoneLefts(ls, rs, kl, kr) == LoneLeft(ls[0], rs, kl, kr) + LoneLefts(ls[1..], rs, kl, kr)
  {
    hide LoneLefts, LoneLeft;
    var n := |ls| - 1;
    assert ls == ls[..n] + [ls[n]];
    LoneLeftsSnoc(ls[..n], ls[n], rs, kl, kr);
    if n > 0 {
      LoneLeftsFront(ls[..n], rs, kl, kr);
      assert ls[1..] == ls[..n][1..] + [ls[n]];
      LoneLeftsSnoc(ls[..n][1..], ls[n], rs, kl, kr);
    } else {
      assert ls[1..] == [] && ls[..n] == [];
      NoLones(rs, kl, kr);
    }
  }

  lemma NoLones(rows: seq<Row>, kl: KeyOf, kr: KeyOf)
    ensures LoneLefts([], rows, kl, kr) == [] && LoneRights(rows, [], kl, kr) == []
  {
  }

  lemma {:induction false} LoneRightsFront(ls: seq<Row>, rs: seq<Row>, kl: KeyOf, kr: KeyOf)
    requires rs != []
    ensures LoneRights(ls, rs, kl, kr) == LoneRight(ls, rs[0], kl, kr) + LoneRights(ls, rs[1..], kl, kr)
  {
    hide LoneRights, LoneRight;
    var n := |rs| - 1;
    assert rs == rs[..n] + [rs[n]];
    LoneRightsSnoc(ls, rs[..n], rs[n], kl, kr);
    if n > 0 {
      LoneRightsFront(ls, rs[..n], kl, kr);
      assert rs[1..] == rs[..n][1..] + [rs[n]];
      LoneRightsSnoc(ls, rs[..n][1..], rs[n], kl, kr);
    } else {
      assert rs[1..] == [] && rs[..n] == [];
      NoLones(ls, kl, kr);
    }
  }

  lemma {:induction false} ProbeLefts(ls: seq<Row>, rs: seq<Row>, kl: KeyOf, kr: KeyOf, jt: JoinType)
    ensures multiset(OrientAll(ProbeOuts(rs, kr, kl, jt, ls), false))
         == multiset(AllMatches(ls, rs, kl, kr)) + multiset(if jt == Left then LoneLefts(ls, rs, kl, kr) else [])
  {
    hide ProbeOut, MatchesOf, LoneLeft, OrientAll;
    if ls != [] {
      ProbeLefts(ls[1..], rs, kl, kr, jt);
      ProbeLeft(ls[0], rs, kl, kr, jt);
      LoneLeftsFront(ls, rs, kl, kr);
      OrientConcat(ProbeOut(rs, kr, kl, jt, ls[0]), ProbeOuts(rs, kr, kl, jt, ls[1..]), false);
    }
  }

  lemma {:induction false} ProbeRights(ls: seq<Row>, rs: seq<Row>, kl: KeyOf, kr: KeyOf, jt: JoinType)
    ensures multiset(OrientAll(ProbeOuts(ls, kl, kr, jt, rs), true))
         == multiset(AllMatchesByRight(ls, rs, kl, kr))
            + multiset(if jt == Left then LoneRights(ls, rs, kl, kr) else [])
  {
    hide ProbeOut, MatchesWith, LoneRight, OrientAll;
    if rs != [] {
      ProbeRights(ls, rs[1..], kl, kr, jt);
      ProbeRight(ls, rs[0], kl, kr, jt);
      LoneRightsFront(ls, rs, kl, kr);
      OrientConcat(ProbeOut(ls, kl, kr, jt, rs[0]), ProbeOuts(ls, kl, kr, jt, rs[1..]), true);
    }
  }

  lemma UnmatchedIffLone(kl: KeyOf, kr: KeyOf, ls: seq<Row>, r: Row)
    ensures kr(r) in UnmatchedKeys(kl, ls) <==> !exists i | 0 <= i < |ls| :: Matches(kl, kr, ls[i], r)
  {
    if kr(r).Some? && kr(r) in KeysOf(ls, kl) {
      var i :| 0 <= i < |ls| && kl(ls[i]) == kr(r);
      assert Matches(kl, kr, ls[i], r);
    }
  }

  lemma UnmatchedIffLoneLeft(kl: KeyOf, kr: KeyOf, l: Row, rs: seq<Row>)
    ensures kl(l) in UnmatchedKeys(kr, rs) <==> !exists i | 0 <= i < |rs| :: Matches(kl, kr, l, rs[i])
  {
    if kl(l).Some? && kl(l) in KeysOf(rs, kr) {
      var i :| 0 <= i < |rs| && kr(rs[i]) == kl(l);
      assert Matches(kl, kr, l, rs[i]);
    }
  }

  lemma {:induction false} LoneBuildRights(ls: seq<Row>, rs: seq<Row>, kl: KeyOf, kr: KeyOf)
    ensures OrientAll(BuildOnlys(rs, kr, UnmatchedKeys(kl, ls)), false) == LoneRights(ls, rs, kl, kr)
  {
    hide Matches, UnmatchedKeys;
    if rs != [] {
      var n := |rs| - 1;
      LoneBuildRights(ls, rs[..n], kl, kr);
      UnmatchedIffLone(kl, kr, ls, rs[n]);
    }
  }

  lemma {:induction false} LoneBuildLefts(ls: seq<Row>, rs: seq<Row>, kl: KeyOf, kr: KeyOf)
    ensures OrientAll(BuildOnlys(ls, kl, UnmatchedKeys(kr, rs)), true) == LoneLefts(ls, rs, kl, kr)
  {
    hide Matches, UnmatchedKeys;
    if ls != [] {
      var n := |ls| - 1;
      LoneBuildLefts(ls[..n], rs, kl, kr);
      UnmatchedIffLoneLeft(kl, kr, ls[n], rs);
    }
  }

  function FlipOuterJoin(jt: JoinType): JoinType {
    match jt case Left => Right case Right => Left case Inner => Inner
  }

  /** Swapping the operands and flipping the join type leaves the joined table. */
  lemma BuildSideIsFree(ls: seq<Row>, rs: seq<Row>, kl: KeyOf, kr: KeyOf, jt: JoinType, leftIsBuild: bool)
    ensures var denoted := if leftIsBuild then Denoted(ls, rs, kl, kr, FlipOuterJoin(jt))
                           else Denoted(rs, ls, kr, kl, jt);
            multiset(OrientAll(denoted, leftIsBuild)) == multiset(Reference(ls, rs, kl, kr, jt))
  {
    hide ProbeOuts, BuildOnlys, AllMatches, AllMatchesByRight, LoneLefts, LoneRights, OrientAll, UnmatchedKeys;
    if leftIsBuild {
      var flipped := FlipOuterJoin(jt);
      ProbeRights(ls, rs, kl, kr, flipped);
      Transpose(ls, rs, kl, kr);
      LoneBuildLefts(ls, rs, kl, kr);
      OrientConcat(ProbeOuts(ls, kl, kr, flipped, rs),
                   if flipped == Right then BuildOnlys(ls, kl, UnmatchedKeys(kr, rs)) else [], true);
      NothingOriented(true);
    } else {
      ProbeLefts(ls, rs, kl, kr, jt);
      LoneBuildRights(ls, rs, kl, kr);
      OrientConcat(ProbeOuts(rs, kr, kl, jt, ls),
                   if jt == Right then BuildOnlys(rs, kr, UnmatchedKeys(kl, ls)) else [], false);
      NothingOriented(false);
    }
  }

  lemma NothingOriented(leftIsBuild: bool)
    ensures OrientAll([], leftIsBuild) == []
  {
  }
}
