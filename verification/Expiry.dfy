// The expiry filter of store/tree/tree.go: a list of expiry seconds, of which those
// after `now` are live.

module Expiry {
  // What `removeExpired` keeps, in order.
  function Live(expiries: seq<int>, now: int): seq<int> {
    if expiries == [] then []
    else
      var rest := Live(expiries[..|expiries| - 1], now);
      var last := expiries[|expiries| - 1];
      if last > now then rest + [last] else rest
  }

  lemma LiveSnoc(expiries: seq<int>, x: int, now: int)
    ensures Live(expiries + [x], now) == Live(expiries, now) + (if x > now then [x] else [])
  {
    assert (expiries + [x])[..|expiries|] == expiries;
  }

  // Filtering early loses nothing that a later filter would keep.
  lemma {:induction false} LiveLive(expiries: seq<int>, early: int, late: int)
    requires early <= late
    ensures Live(Live(expiries, early), late) == Live(expiries, late)
  {
    if expiries != [] {
      var front, last := expiries[..|expiries| - 1], expiries[|expiries| - 1];
      LiveLive(front, early, late);
      LiveSnoc(Live(front, early), last, late);
    }
  }

  lemma {:induction false} LiveShrinks(expiries: seq<int>, early: int, late: int)
    requires early <= late
    ensures |Live(expiries, late)| <= |Live(expiries, early)|
  {
    if expiries != [] {
      LiveShrinks(expiries[..|expiries| - 1], early, late);
    }
  }

  lemma {:induction false} LiveMembers(expiries: seq<int>, now: int)
    ensures forall x :: x in Live(expiries, now) <==> x in expiries && x > now
  {
    if expiries != [] {
      var front, last := expiries[..|expiries| - 1], expiries[|expiries| - 1];
      LiveMembers(front, now);
      assert expiries == front + [last];
    }
  }

  ghost predicate Sorted(s: seq<int>) {
    forall i, j | 0 <= i < j < |s| :: s[i] <= s[j]
  }
}
