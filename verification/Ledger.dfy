/** A table of versions by height. A read returns the latest version at or below a height. */
module Ledger {
  import opened Prelude

  function Latest<T>(rows: map<nat, T>, height: nat): Option<T> {
    if height in rows then Some(rows[height])
    else if height == 0 then None
    else Latest(rows, height - 1)
  }

  function Read<T>(rows: map<nat, T>, height: nat, default: T): T {
    var row := Latest(rows, height);
    if row.Some? then row.value else default
  }

  /** A read finds the row with the greatest height not above the one asked for, if there is one. */
  lemma {:induction false} LatestIsGreatest<T>(rows: map<nat, T>, height: nat)
    ensures Latest(rows, height).None? <==> forall h <- rows :: h > height
    ensures Latest(rows, height).Some? ==>
              exists k <- rows :: k <= height && Latest(rows, height) == Some(rows[k])
                                  && forall h <- rows :: h > height || h <= k
  {
    if height in rows {
    } else if height > 0 {
      LatestIsGreatest(rows, height - 1);
    }
  }

  /** A write changes no earlier version, and shows at every later height that has no version of its own. */
  lemma {:induction false} WriteShows<T>(rows: map<nat, T>, at: nat, row: T, height: nat)
    ensures height < at ==> Latest(rows[at := row], height) == Latest(rows, height)
    ensures at <= height && (forall h <- rows :: h <= at) ==> Latest(rows[at := row], height) == Some(row)
  {
    if height > 0 && height != at { WriteShows(rows, at, row, height - 1); }
  }

  /** Without a version in between, later heights read the same. */
  lemma {:induction false} ReadForward<T>(rows: map<nat, T>, height: nat, later: nat)
    requires height <= later && forall h <- rows :: h <= height
    ensures Latest(rows, later) == Latest(rows, height)
  {
    if height < later { ReadForward(rows, height, later - 1); }
  }

  // ---------- Replaying changes ----------

  datatype Change<!T> = Change(height: nat, f: T -> T)

  /** Each change reads the version at its height, changes it, and writes it back at its height. */
  function Replay<T>(changes: seq<Change<T>>, default: T): map<nat, T> {
    if changes == [] then map[]
    else
      var rows, c := Replay(changes[..|changes| - 1], default), changes[|changes| - 1];
      rows[c.height := c.f(Read(rows, c.height, default))]
  }

  /** All changes one after the other. */
  function Fold<T>(changes: seq<Change<T>>, default: T): T {
    if changes == [] then default
    else changes[|changes| - 1].f(Fold(changes[..|changes| - 1], default))
  }

  function UpTo<T>(changes: seq<Change<T>>, height: nat): seq<Change<T>> {
    if changes == [] then []
    else
      var rest, c := UpTo(changes[..|changes| - 1], height), changes[|changes| - 1];
      if c.height <= height then rest + [c] else rest
  }

  predicate InOrder<T>(changes: seq<Change<T>>) {
    forall i, j :: 0 <= i < j < |changes| ==> changes[i].height <= changes[j].height
  }

  lemma {:induction false} ReplayHeights<T>(changes: seq<Change<T>>, default: T)
    ensures forall h :: h in Replay(changes, default) <==> exists c <- changes :: c.height == h
    decreases |changes|
  {
    if changes != [] {
      var init, last := changes[..|changes| - 1], changes[|changes| - 1];
      ReplayHeights(init, default);
      assert changes == init + [last];
    }
  }

  lemma {:induction false} AllUpTo<T>(changes: seq<Change<T>>, height: nat)
    requires forall c <- changes :: c.height <= height
    ensures UpTo(changes, height) == changes
    decreases |changes|
  {
    if changes != [] {
      AllUpTo(changes[..|changes| - 1], height);
      assert changes == changes[..|changes| - 1] + [changes[|changes| - 1]];
    }
  }

  /** With changes in height order, a read at any height is exactly the changes at or below it, one after the other. */
  lemma {:induction false} ReadIsFold<T>(changes: seq<Change<T>>, default: T, height: nat)
    requires InOrder(changes)
    ensures Read(Replay(changes, default), height, default) == Fold(UpTo(changes, height), default)
    ensures Latest(Replay(changes, default), height).None? <==> UpTo(changes, height) == []
    decreases |changes|
  {
    if changes == [] {
      LatestIsGreatest<T>(map[], height);
    } else {
      var init, last := changes[..|changes| - 1], changes[|changes| - 1];
      assert InOrder(init);
      ReadIsFold(init, default, height);
      var rows := Replay(init, default);
      ReplayHeights(init, default);
      var row := last.f(Read(rows, last.height, default));
      WriteShows(rows, last.height, row, height);
      if last.height <= height {
        ReadIsFold(init, default, last.height);
        AllUpTo(init, last.height);
        AllUpTo(init, height);
        var upTo := UpTo(changes, height);
        assert upTo == init + [last] && upTo[..|upTo| - 1] == init;
      }
    }
  }
}
