/** The open windows are exactly the live crosses. */
module SimWindows {
  import opened Simulator
  import opened SimLaws

  predicate OpenFor(m: Market, i: nat, pair: Pair) {
    i < |m.windows| && m.windows[i].tsClose == 0 && m.windows[i].pair == pair
  }

  /** The active list names exactly the open windows, at most one per pair. */
  ghost predicate ActiveInv(m: Market) {
    && (forall i :: i in m.active ==> i < |m.windows|)
    && (forall i :: 0 <= i < |m.windows| ==> (i in m.active <==> m.windows[i].tsClose == 0))
    && (forall i, j :: i in m.active && j in m.active && i != j ==> m.windows[i].pair != m.windows[j].pair)
  }

  lemma {:induction false} FindActiveFinds(ws: seq<Window>, active: seq<nat>, pair: Pair, from: nat)
    requires from <= |active|
    ensures var k := FindActive(ws, active, pair, from);
            && (k < |active| ==> active[k] < |ws| && ws[active[k]].pair == pair)
            && (forall j :: from <= j < k ==> !(active[j] < |ws| && ws[active[j]].pair == pair))
    decreases |active| - from
  {
    if from < |active| && !(active[from] < |ws| && ws[active[from]].pair == pair) {
      FindActiveFinds(ws, active, pair, from + 1);
    }
  }

  /** Some open window has this pair. */
  ghost predicate HasOpen(m: Market, pair: Pair) {
    exists i: nat :: OpenFor(m, i, pair)
  }

  lemma CrossOpens(m: Market, c: Cross, symbol: string, now: int)
    requires ActiveInv(m)
    ensures var k := MarketCross(m, c, symbol, now);
            && ActiveInv(k) && HasOpen(k, c.pair)
            && (forall pair :: HasOpen(k, pair) <==> HasOpen(m, pair) || pair == c.pair)
  {
    FindActiveFinds(m.windows, m.active, c.pair, 0);
    var i, k := FindActive(m.windows, m.active, c.pair, 0), MarketCross(m, c, symbol, now);
    if i == |m.active| {
      forall j | j in m.active ensures m.windows[j].pair != c.pair {
        var x :| 0 <= x < |m.active| && m.active[x] == j;
      }
      assert OpenFor(k, |m.windows|, c.pair);
      forall pair ensures HasOpen(k, pair) <==> HasOpen(m, pair) || pair == c.pair {
        if HasOpen(m, pair) {
          var j: nat :| OpenFor(m, j, pair);
          assert OpenFor(k, j, pair);
        }
        if HasOpen(k, pair) {
          var j: nat :| OpenFor(k, j, pair);
          assert j < |m.windows| ==> OpenFor(m, j, pair);
        }
      }
    } else {
      var id := m.active[i];
      assert id in m.active;
      assert forall j: nat, pair :: OpenFor(k, j, pair) <==> OpenFor(m, j, pair);
      assert OpenFor(m, id, c.pair);
      forall pair ensures HasOpen(k, pair) <==> HasOpen(m, pair) || pair == c.pair {
        if HasOpen(m, pair) {
          var j: nat :| OpenFor(m, j, pair);
          assert OpenFor(k, j, pair);
        }
      }
      assert OpenFor(k, id, c.pair);
    }
  }

  lemma {:induction false} CrossesOpen(m: Market, cs: seq<Cross>, n: nat, symbol: string, now: int)
    requires ActiveInv(m) && n <= |cs|
    ensures var k := MarketCrosses(m, cs, n, symbol, now);
            ActiveInv(k) && AllOpen(k, cs, n)
  {
    if n != 0 {
      CrossesOpen(m, cs, n - 1, symbol, now);
      OneMoreOpen(MarketCrosses(m, cs, n - 1, symbol, now), cs, n, symbol, now);
    }
  }

  ghost predicate AllOpen(m: Market, cs: seq<Cross>, n: nat)
    requires n <= |cs|
  {
    forall j :: 0 <= j < n ==> HasOpen(m, cs[j].pair)
  }

  lemma OneMoreOpen(m: Market, cs: seq<Cross>, n: nat, symbol: string, now: int)
    requires ActiveInv(m) && 0 < n <= |cs| && AllOpen(m, cs, n - 1)
    ensures var k := MarketCross(m, cs[n - 1], symbol, now);
            ActiveInv(k) && AllOpen(k, cs, n)
  {
    CrossOpens(m, cs[n - 1], symbol, now);
  }

  /** The closing pass so far: of the first `n`, the live ones stay and the others are closed now. */
  lemma {:induction false} CloseSplits(r: Rules, m: Market, cs: seq<Cross>, now: int, n: nat)
    requires ActiveInv(m) && n <= |m.active| && now > 0
    ensures var k := CloseFirst(r, m, cs, now, n);
            && |k.windows| == |m.windows|
            && (forall i :: 0 <= i < |m.windows| ==> k.windows[i].pair == m.windows[i].pair)
            && (forall i :: i in k.active <==> i in m.active[..n] && i < |m.windows| && Live(cs, m.windows[i].pair))
            && (forall i :: 0 <= i < |m.windows| ==>
                  (k.windows[i].tsClose ==
                     if i in m.active[..n] && !Live(cs, m.windows[i].pair) then now else m.windows[i].tsClose))
  {
    if n != 0 {
      CloseSplits(r, m, cs, now, n - 1);
      assert m.active[..n] == m.active[..n - 1] + [m.active[n - 1]];
      assert m.active[n - 1] in m.active;
    }
  }

  lemma StepActive(r: Rules, m: Market, e: Event)
    requires ActiveInv(m) && e.book.ts > 0
    ensures var k := MarketStep(r, m, e);
            && ActiveInv(k)
            && (|k.books| >= 2 ==> forall pair :: HasOpen(k, pair) <==> Live(DetectCrosses(r, k.books), pair))
  {
    var a := Absorb(r, m, e);
    assert ActiveInv(a);
    StepEvolves(r, m, e);
    if |a.books| >= 2 {
      var cs := DetectCrosses(r, a.books);
      CrossesOpen(a, cs, |cs|, e.book.symbol, e.book.ts);
      CrossesEvolve(a, cs, |cs|, e.book.symbol, e.book.ts);
      var o := MarketOpened(r, m, e);
      CloseLeavesLive(r, o, cs, e.book.ts);
    }
  }

  lemma CloseLeavesLive(r: Rules, m: Market, cs: seq<Cross>, now: int)
    requires ActiveInv(m) && now > 0 && AllOpen(m, cs, |cs|)
    ensures var k := CloseFirst(r, m, cs, now, |m.active|);
            ActiveInv(k) && forall pair :: HasOpen(k, pair) <==> Live(cs, pair)
  {
    CloseSplits(r, m, cs, now, |m.active|);
    var k := CloseFirst(r, m, cs, now, |m.active|);
    assert m.active[..|m.active|] == m.active;
    forall pair ensures HasOpen(k, pair) <==> Live(cs, pair) {
      if HasOpen(k, pair) {
        var i: nat :| OpenFor(k, i, pair);
        assert i in m.active;
      }
      if Live(cs, pair) {
        var c :| c in cs && c.pair == pair;
        var j :| 0 <= j < |cs| && cs[j] == c;
        assert HasOpen(m, cs[j].pair);
        var i: nat :| OpenFor(m, i, pair);
        assert OpenFor(k, i, pair);
      }
    }
  }

  lemma {:induction false} ActiveAlways(r: Rules, es: seq<Event>, n: nat)
    requires n <= |es| && forall i :: 0 <= i < |es| ==> es[i].book.ts > 0
    ensures ActiveInv(MarketAfter(r, es, n))
  {
    if n != 0 {
      ActiveAlways(r, es, n - 1);
      StepActive(r, MarketAfter(r, es, n - 1), es[n - 1]);
    }
  }

  /** After every event that leaves at least two venues, a window of a pair is open exactly when the pair crosses, and then only one. */
  lemma OpenWindowsAreLive(r: Rules, es: seq<Event>, n: nat, pair: Pair)
    requires 0 < n <= |es| && forall i :: 0 <= i < |es| ==> es[i].book.ts > 0
    requires |MarketAfter(r, es, n).books| >= 2
    ensures var m := MarketAfter(r, es, n);
            && (HasOpen(m, pair) <==> Live(DetectCrosses(r, m.books), pair))
            && (forall i: nat, j: nat :: OpenFor(m, i, pair) && OpenFor(m, j, pair) ==> i == j)
  {
    ActiveAlways(r, es, n - 1);
    StepActive(r, MarketAfter(r, es, n - 1), es[n - 1]);
  }
}
