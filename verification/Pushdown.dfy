/** Predicate pushdown and the whole plan of a join query. */
module Pushdown {
  import opened Basics
  import opened HashJoin
  import opened Sql
  import opened Resolve
  import opened Planner

  // ----- Dropping rows before the join that the filter drops after it -----

  /** No selected outcome contains a left row that `keep` drops. */
  ghost predicate CoversLeft(keep: Row -> bool, selects: Outcome -> bool, ls: seq<Row>, rs: seq<Row>) {
    && (forall i, j | 0 <= i < |ls| && 0 <= j < |rs| :: selects(Match(ls[i], rs[j])) ==> keep(ls[i]))
    && (forall i | 0 <= i < |ls| :: selects(LeftRow(ls[i])) ==> keep(ls[i]))
  }

  ghost predicate CoversRight(keep: Row -> bool, selects: Outcome -> bool, ls: seq<Row>, rs: seq<Row>) {
    && (forall i, j | 0 <= i < |ls| && 0 <= j < |rs| :: selects(Match(ls[i], rs[j])) ==> keep(rs[j]))
    && (forall j | 0 <= j < |rs| :: selects(RightRow(rs[j])) ==> keep(rs[j]))
  }

  lemma {:induction false} AllMatchesSnoc(ls: seq<Row>, rs: seq<Row>, kl: KeyOf, kr: KeyOf)
    requires ls != []
    ensures AllMatches(ls, rs, kl, kr)
         == AllMatches(ls[..|ls| - 1], rs, kl, kr) + MatchesOf(ls[|ls| - 1], rs, kl, kr)
  {
    hide MatchesOf;
    var n := |ls| - 1;
    if n > 0 {
      AllMatchesSnoc(ls[1..], rs, kl, kr);
      assert ls[1..][..n - 1] == ls[..n][1..];
    } else {
      assert ls[1..] == [] && ls[..n] == [];
    }
  }

  lemma {:induction false} NoneSelected(l: Row, rs: seq<Row>, kl: KeyOf, kr: KeyOf, selects: Outcome -> bool)
    requires forall j | 0 <= j < |rs| :: !selects(Match(l, rs[j]))
    ensures Filter(selects, MatchesOf(l, rs, kl, kr)) == []
  {
    hide Matches;
    if rs != [] {
      var n := |rs| - 1;
      NoneSelected(l, rs[..n], kl, kr, selects);
      FilterConcat(selects, MatchesOf(l, rs[..n], kl, kr), if Matches(kl, kr, l, rs[n]) then [Match(l, rs[n])] else []);
    }
  }

  lemma FilterSnoc<T>(p: T -> bool, s: seq<T>, x: T)
    ensures Filter(p, s + [x]) == if p(x) then Filter(p, s) + [x] else Filter(p, s)
  {
    assert (s + [x])[..|s|] == s;
  }

  lemma FilterOut<T>(p: T -> bool, s: seq<T>, x: T)
    requires !p(x) && (s == [] || s == [x])
    ensures Filter(p, s) == []
  {
  }

  lemma FilterNone<T>(p: T -> bool, s: seq<T>)
    requires s == []
    ensures Filter(p, s) == s
  {
  }

  lemma ConcatNothing<T>(a: seq<T>, b: seq<T>)
    requires b == []
    ensures a + b == a
  {
  }

  lemma AllMatchesAppend(ls: seq<Row>, l: Row, rs: seq<Row>, kl: KeyOf, kr: KeyOf)
    ensures AllMatches(ls + [l], rs, kl, kr) == AllMatches(ls, rs, kl, kr) + MatchesOf(l, rs, kl, kr)
  {
    AllMatchesSnoc(ls + [l], rs, kl, kr);
    assert (ls + [l])[..|ls|] == ls;
  }

  /** Dropping left rows before joining, when no dropped row could be selected. */
  lemma {:induction false} DropLeft(keep: Row -> bool, selects: Outcome -> bool, ls: seq<Row>, rs: seq<Row>,
                                    kl: KeyOf, kr: KeyOf)
    requires CoversLeft(keep, selects, ls, rs)
    ensures Filter(selects, AllMatches(Filter(keep, ls), rs, kl, kr)) == Filter(selects, AllMatches(ls, rs, kl, kr))
  {
    hide Matches, MatchesOf, AllMatches, Filter;
    if ls == [] {
      FilterNone(keep, ls);
    } else {
      var n := |ls| - 1;
      var init, l := ls[..n], ls[n];
      assert ls == init + [l];
      DropLeft(keep, selects, init, rs, kl, kr);
      FilterSnoc(keep, init, l);
      AllMatchesAppend(init, l, rs, kl, kr);
      FilterConcat(selects, AllMatches(init, rs, kl, kr), MatchesOf(l, rs, kl, kr));
      if keep(l) {
        AllMatchesAppend(Filter(keep, init), l, rs, kl, kr);
        FilterConcat(selects, AllMatches(Filter(keep, init), rs, kl, kr), MatchesOf(l, rs, kl, kr));
      } else {
        NoneSelected(l, rs, kl, kr, selects);
        ConcatNothing(Filter(selects, AllMatches(init, rs, kl, kr)), Filter(selects, MatchesOf(l, rs, kl, kr)));
      }
    }
  }

  lemma {:induction false} DropLoneLeft(keep: Row -> bool, selects: Outcome -> bool, ls: seq<Row>, rs: seq<Row>,
                                        kl: KeyOf, kr: KeyOf)
    requires CoversLeft(keep, selects, ls, rs)
    ensures Filter(selects, LoneLefts(Filter(keep, ls), rs, kl, kr)) == Filter(selects, LoneLefts(ls, rs, kl, kr))
  {
    hide Matches, LoneLefts, Filter;
    if ls == [] {
      FilterNone(keep, ls);
    } else {
      var n := |ls| - 1;
      var init, l := ls[..n], ls[n];
      assert ls == init + [l];
      DropLoneLeft(keep, selects, init, rs, kl, kr);
      FilterSnoc(keep, init, l);
      LoneLeftsSnoc(init, l, rs, kl, kr);
      LoneLeftsSnoc(Filter(keep, init), l, rs, kl, kr);
      FilterConcat(selects, LoneLefts(init, rs, kl, kr), LoneLeft(l, rs, kl, kr));
      FilterConcat(selects, LoneLefts(Filter(keep, init), rs, kl, kr), LoneLeft(l, rs, kl, kr));
      if !keep(l) {
        FilterOut(selects, LoneLeft(l, rs, kl, kr), LeftRow(l));
        ConcatNothing(Filter(selects, LoneLefts(init, rs, kl, kr)), Filter(selects, LoneLeft(l, rs, kl, kr)));
      }
    }
  }

  lemma {:induction false} DropRightOne(keep: Row -> bool, selects: Outcome -> bool, l: Row, rs: seq<Row>, kl: KeyOf,
                                        kr: KeyOf)
    requires forall j | 0 <= j < |rs| :: selects(Match(l, rs[j])) ==> keep(rs[j])
    ensures Filter(selects, MatchesOf(l, Filter(keep, rs), kl, kr)) == Filter(selects, MatchesOf(l, rs, kl, kr))
  {
    hide Matches, MatchesOf, Filter;
    if rs == [] {
      FilterNone(keep, rs);
    } else {
      var n := |rs| - 1;
      var init, r := rs[..n], rs[n];
      assert rs == init + [r];
      DropRightOne(keep, selects, l, init, kl, kr);
      FilterSnoc(keep, init, r);
      MatchesOfSnoc(l, init, r, kl, kr);
      MatchesOfSnoc(l, Filter(keep, init), r, kl, kr);
      FilterConcat(selects, MatchesOf(l, init, kl, kr), MatchOne(l, r, kl, kr));
      FilterConcat(selects, MatchesOf(l, Filter(keep, init), kl, kr), MatchOne(l, r, kl, kr));
      if !keep(r) {
        FilterOut(selects, MatchOne(l, r, kl, kr), Match(l, r));
        ConcatNothing(Filter(selects, MatchesOf(l, init, kl, kr)), Filter(selects, MatchOne(l, r, kl, kr)));
      }
    }
  }

  lemma {:induction false} DropRight(keep: Row -> bool, selects: Outcome -> bool, ls: seq<Row>, rs: seq<Row>,
                                     kl: KeyOf, kr: KeyOf)
    requires CoversRight(keep, selects, ls, rs)
    ensures Filter(selects, AllMatches(ls, Filter(keep, rs), kl, kr)) == Filter(selects, AllMatches(ls, rs, kl, kr))
  {
    hide Matches, MatchesOf;
    if ls != [] {
      DropRight(keep, selects, ls[1..], rs, kl, kr);
      DropRightOne(keep, selects, ls[0], rs, kl, kr);
      FilterConcat(selects, MatchesOf(ls[0], rs, kl, kr), AllMatches(ls[1..], rs, kl, kr));
      FilterConcat(selects, MatchesOf(ls[0], Filter(keep, rs), kl, kr), AllMatches(ls[1..], Filter(keep, rs), kl, kr));
    }
  }

  lemma {:induction false} DropLoneRight(keep: Row -> bool, selects: Outcome -> bool, ls: seq<Row>, rs: seq<Row>,
                                         kl: KeyOf, kr: KeyOf)
    requires CoversRight(keep, selects, ls, rs)
    ensures Filter(selects, LoneRights(ls, Filter(keep, rs), kl, kr)) == Filter(selects, LoneRights(ls, rs, kl, kr))
  {
    hide Matches, LoneRights, Filter;
    if rs == [] {
      FilterNone(keep, rs);
    } else {
      var n := |rs| - 1;
      var init, r := rs[..n], rs[n];
      assert rs == init + [r];
      DropLoneRight(keep, selects, ls, init, kl, kr);
      FilterSnoc(keep, init, r);
      LoneRightsSnoc(ls, init, r, kl, kr);
      LoneRightsSnoc(ls, Filter(keep, init), r, kl, kr);
      FilterConcat(selects, LoneRights(ls, init, kl, kr), LoneRight(ls, r, kl, kr));
      FilterConcat(selects, LoneRights(ls, Filter(keep, init), kl, kr), LoneRight(ls, r, kl, kr));
      if !keep(r) {
        FilterOut(selects, LoneRight(ls, r, kl, kr), RightRow(r));
        ConcatNothing(Filter(selects, LoneRights(ls, init, kl, kr)), Filter(selects, LoneRight(ls, r, kl, kr)));
      }
    }
  }

  lemma {:induction false} FilterWithin<T>(p: T -> bool, s: seq<T>, i: nat)
    requires i < |Filter(p, s)|
    ensures exists k :: 0 <= k < |s| && Filter(p, s)[i] == s[k]
  {
    var n := |s| - 1;
    if i < |Filter(p, s[..n])| {
      FilterWithin(p, s[..n], i);
      var k :| 0 <= k < n && Filter(p, s[..n])[i] == s[..n][k];
      assert s[k] == s[..n][k];
    } else {
      assert Filter(p, s)[i] == s[n];
    }
  }

  lemma CoversLeftOfKept(keepRight: Row -> bool, keep: Row -> bool, selects: Outcome -> bool, ls: seq<Row>,
                         rs: seq<Row>)
    requires CoversLeft(keep, selects, ls, rs)
    ensures CoversLeft(keep, selects, ls, Filter(keepRight, rs))
  {
    var kept := Filter(keepRight, rs);
    forall i, j | 0 <= i < |ls| && 0 <= j < |kept| ensures selects(Match(ls[i], kept[j])) ==> keep(ls[i]) {
      FilterWithin(keepRight, rs, j);
    }
  }

  /** Filtering a preserved or inner side first changes nothing that the filter
      above the join keeps. */
  lemma PushdownIsSound(keepLeft: Row -> bool, keepRight: Row -> bool, selects: Outcome -> bool,
                        ls: seq<Row>, rs: seq<Row>, kl: KeyOf, kr: KeyOf, jt: JoinType)
    requires CoversLeft(keepLeft, selects, ls, rs) && CoversRight(keepRight, selects, ls, rs)
    ensures var pushedLeft := if jt == Right then ls else Filter(keepLeft, ls);
            var pushedRight := if jt == Left then rs else Filter(keepRight, rs);
            Filter(selects, Reference(pushedLeft, pushedRight, kl, kr, jt))
                == Filter(selects, Reference(ls, rs, kl, kr, jt))
  {
    hide AllMatches, LoneLefts, LoneRights;
    var pushedLeft := if jt == Right then ls else Filter(keepLeft, ls);
    var pushedRight := if jt == Left then rs else Filter(keepRight, rs);
    CoversLeftOfKept(keepRight, keepLeft, selects, ls, rs);
    if jt != Right {
      DropLeft(keepLeft, selects, ls, pushedRight, kl, kr);
      DropLoneLeft(keepLeft, selects, ls, pushedRight, kl, kr);
    }
    if jt != Left {
      DropRight(keepRight, selects, ls, rs, kl, kr);
      DropLoneRight(keepRight, selects, ls, rs, kl, kr);
    }
    FilterReference(selects, ls, rs, kl, kr, jt);
    FilterReference(selects, pushedLeft, pushedRight, kl, kr, jt);
  }

  lemma FilterReference(selects: Outcome -> bool, ls: seq<Row>, rs: seq<Row>, kl: KeyOf, kr: KeyOf, jt: JoinType)
    ensures Filter(selects, Reference(ls, rs, kl, kr, jt))
         == Filter(selects, AllMatches(ls, rs, kl, kr))
            + Filter(selects, if jt == Left then LoneLefts(ls, rs, kl, kr) else [])
            + Filter(selects, if jt == Right then LoneRights(ls, rs, kl, kr) else [])
  {
    hide AllMatches, LoneLefts, LoneRights;
    var a := AllMatches(ls, rs, kl, kr);
    var b := if jt == Left then LoneLefts(ls, rs, kl, kr) else [];
    var c := if jt == Right then LoneRights(ls, rs, kl, kr) else [];
    FilterConcat(selects, a + b, c);
    FilterConcat(selects, a, b);
  }
}
