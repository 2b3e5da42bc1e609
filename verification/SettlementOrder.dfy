/** settle_match_outcome does not depend on the order in which rows come back, splits over
    concurrent calls that skip each other's locked rows, and pays out what it reports.
  */
module SettlementOrder {
  import opened Permutations
  import opened SettlementTables
  import opened SettlementLedger
  import opened SettlementMeaning

  // Equal tables; the ledger may list its rows in another order.
  ghost predicate SameTables(a: Db, b: Db) {
    && a.users == b.users && a.wallets == b.wallets && a.bets == b.bets && a.mpesa == b.mpesa
    && multiset(a.ledger) == multiset(b.ledger)
  }

  ghost predicate SameSettlement(a: Settlement, b: Settlement) {
    SameTables(a.db, b.db) && a.won == b.won && a.lost == b.lost && a.total == b.total
  }

  lemma SettleOneCongruent(a: Settlement, b: Settlement, id: Id, winner: Id)
    requires SameSettlement(a, b) && id in a.db.bets
    ensures SameSettlement(SettleOne(a, id, winner), SettleOne(b, id, winner))
  {
    hide PayoutOf;
  }

  // One settlement, field by field.
  function Won(row: BetRow, winner: Id): bool {
    row.selection == winner
  }

  function Paid(row: BetRow, winner: Id): nat {
    if Won(row, winner) then PayoutOf(row) else 0
  }

  function PaidRows(id: Id, row: BetRow, winner: Id): multiset<Entry> {
    if Won(row, winner) then multiset{PayoutEntry(id, row)} else multiset{}
  }

  lemma SettleOneFields(s: Settlement, id: Id, winner: Id)
    requires id in s.db.bets
    ensures var row := s.db.bets[id]; var s' := SettleOne(s, id, winner);
      && s'.db.bets == s.db.bets[id := row.(status := if Won(row, winner) then BetWon else BetLost)]
      && s'.db.wallets == CreditWallet(s.db.wallets, row.user, Paid(row, winner))
      && multiset(s'.db.ledger) == multiset(s.db.ledger) + PaidRows(id, row, winner)
      && s'.db.users == s.db.users && s'.db.mpesa == s.db.mpesa
      && s'.won == s.won + (if Won(row, winner) then 1 else 0)
      && s'.lost == s.lost + (if Won(row, winner) then 0 else 1)
      && s'.total == s.total + Paid(row, winner)
  {
    hide PayoutOf;
  }

  lemma CreditsCommute(wallets: map<Id, int>, u: Id, a: int, v: Id, b: int)
    ensures CreditWallet(CreditWallet(wallets, u, a), v, b) == CreditWallet(CreditWallet(wallets, v, b), u, a)
  {
  }

  lemma SettleOneCommutes(s: Settlement, x: Id, y: Id, winner: Id)
    requires x in s.db.bets && y in s.db.bets && x != y
    ensures y in SettleOne(s, x, winner).db.bets && x in SettleOne(s, y, winner).db.bets
    ensures SameSettlement(SettleOne(SettleOne(s, x, winner), y, winner), SettleOne(SettleOne(s, y, winner), x, winner))
  {
    hide SettleOne, CreditWallet, Won, Paid, PaidRows;
    var rx, ry := s.db.bets[x], s.db.bets[y];
    SettleOneFields(s, x, winner);
    SettleOneFields(s, y, winner);
    SettleOneFields(SettleOne(s, x, winner), y, winner);
    SettleOneFields(SettleOne(s, y, winner), x, winner);
    CreditsCommute(s.db.wallets, rx.user, Paid(rx, winner), ry.user, Paid(ry, winner));
  }

  lemma {:induction false} SettleRowsCongruent(a: Settlement, b: Settlement, rows: seq<Id>, winner: Id)
    requires SameSettlement(a, b) && forall id | id in rows :: id in a.db.bets
    ensures SameSettlement(SettleRows(a, rows, winner), SettleRows(b, rows, winner))
  {
    hide SettleOne;
    if rows != [] {
      var front := rows[..|rows| - 1];
      SettleRowsCongruent(a, b, front, winner);
      SettleOneCongruent(SettleRows(a, front, winner), SettleRows(b, front, winner), rows[|rows| - 1], winner);
    }
  }

  lemma {:induction false} SettleRowsSplit(s: Settlement, xs: seq<Id>, ys: seq<Id>, winner: Id)
    requires forall id | id in xs + ys :: id in s.db.bets
    ensures forall id | id in xs :: id in s.db.bets
    ensures SettleRows(s, xs + ys, winner) == SettleRows(SettleRows(s, xs, winner), ys, winner)
  {
    hide SettleOne;
    assert forall id | id in xs :: id in xs + ys;
    assert forall id | id in ys :: id in xs + ys;
    if ys == [] {
      assert xs + ys == xs;
    } else {
      var front := ys[..|ys| - 1];
      assert (xs + ys)[..|xs + ys| - 1] == xs + front;
      assert forall id | id in xs + front :: id in xs + ys;
      SettleRowsSplit(s, xs, front, winner);
    }
  }

  // Settling a row first instead of after others gives the same.
  lemma {:induction false} SettleFirst(s: Settlement, rows: seq<Id>, id: Id, winner: Id)
    requires id in s.db.bets && id !in rows && forall r | r in rows :: r in s.db.bets
    ensures SameSettlement(SettleOne(SettleRows(s, rows, winner), id, winner), SettleRows(SettleOne(s, id, winner), rows, winner))
  {
    hide PayoutOf;
    if rows != [] {
      var front, last := rows[..|rows| - 1], rows[|rows| - 1];
      assert forall r | r in front :: r in rows;
      SettleFirst(s, front, id, winner);
      var mid := SettleRows(s, front, winner);
      SettleOneCommutes(mid, last, id, winner);
      SettleOneCongruent(SettleOne(mid, id, winner), SettleRows(SettleOne(s, id, winner), front, winner), last, winner);
    }
  }

  lemma SingleRow(s: Settlement, id: Id, winner: Id)
    requires id in s.db.bets
    ensures SettleRows(s, [id], winner) == SettleOne(s, id, winner)
  {
    assert [id][..0] == [];
  }

  lemma {:induction false} OrderOfRows(s: Settlement, xs: seq<Id>, ys: seq<Id>, winner: Id)
    requires multiset(xs) == multiset(ys) && Distinct(xs) && Distinct(ys)
    requires forall id | id in xs :: id in s.db.bets
    ensures forall id | id in ys :: id in s.db.bets
    ensures SameSettlement(SettleRows(s, xs, winner), SettleRows(s, ys, winner))
    decreases |xs|
  {
    SameElements(xs, ys);
    if xs == [] {
      EmptyPermutation(xs, ys);
    } else {
      hide SettleOne, SettleOneOf, SettleRows, SameSettlement, Distinct;
      var k := TakeFirst(xs, ys);
      var id, tail, front, back := xs[0], xs[1..], ys[..k], ys[k + 1..];
      DistinctParts(xs, ys, k);
      assert ys == front + ([id] + back) && xs == [id] + tail;
      OrderOfRows(SettleOneOf(s, id, winner), tail, front + back, winner);
      FirstRowAnywhere(s, id, tail, front, back, winner);
    }
  }

  lemma FirstRowAnywhere(s: Settlement, id: Id, tail: seq<Id>, front: seq<Id>, back: seq<Id>, winner: Id)
    requires id in s.db.bets && id !in front
    requires forall r | r in tail :: r in s.db.bets
    requires forall r | r in front + back :: r in s.db.bets
    requires SameSettlement(SettleRows(SettleOneOf(s, id, winner), tail, winner),
                            SettleRows(SettleOneOf(s, id, winner), front + back, winner))
    ensures forall r | r in [id] + tail :: r in s.db.bets
    ensures forall r | r in front + ([id] + back) :: r in s.db.bets
    ensures SameSettlement(SettleRows(s, [id] + tail, winner), SettleRows(s, front + ([id] + back), winner))
  {
    hide SettleOne, SettleRows, SameSettlement;
    var s1 := SettleOneOf(s, id, winner);
    MoveToFront(s, front, id, back, winner);
    SettleRowsSplit(s, [id], tail, winner);
    SingleRow(s, id, winner);
    SameIsTransitive(SettleRows(s1, tail, winner), SettleRows(s1, front + back, winner),
                     SettleRows(s, front + ([id] + back), winner));
  }

  function SettleOneOf(s: Settlement, id: Id, winner: Id): (r: Settlement)
    requires id in s.db.bets
    ensures r.db.bets.Keys == s.db.bets.Keys && r == SettleOne(s, id, winner)
  {
    SettleOne(s, id, winner)
  }

  lemma SameIsTransitive(a: Settlement, b: Settlement, c: Settlement)
    requires SameSettlement(a, b) && SameSettlement(b, c)
    ensures SameSettlement(a, c) && SameSettlement(b, a)
  {
  }

  lemma DistinctParts(xs: seq<Id>, ys: seq<Id>, k: nat)
    requires xs != [] && k < |ys| && ys[k] == xs[0] && Distinct(xs) && Distinct(ys)
    ensures Distinct(xs[1..]) && Distinct(ys[..k] + ys[k + 1..])
    ensures ys[k] !in ys[..k] && ys[k] !in ys[k + 1..]
  {
    var rest := ys[..k] + ys[k + 1..];
    forall i, j | 0 <= i < j < |rest|
      ensures rest[i] != rest[j]
    {
      assert rest[i] == ys[if i < k then i else i + 1];
      assert rest[j] == ys[if j < k then j else j + 1];
    }
  }

  lemma MoveToFront(s: Settlement, front: seq<Id>, id: Id, back: seq<Id>, winner: Id)
    requires id in s.db.bets && id !in front
    requires forall r | r in front + back :: r in s.db.bets
    ensures forall r | r in front + ([id] + back) :: r in s.db.bets
    ensures SameSettlement(SettleRows(SettleOneOf(s, id, winner), front + back, winner),
                           SettleRows(s, front + ([id] + back), winner))
  {
    hide SettleOne, SettleRows, SameSettlement;
    assert forall r | r in front :: r in front + back;
    assert forall r | r in back :: r in front + back;
    var s1 := SettleOneOf(s, id, winner);
    var mid := SettleRows(s, front, winner);
    SettleRowsSplit(s, front, [id] + back, winner);
    SettleRowsSplit(mid, [id], back, winner);
    SingleRow(mid, id, winner);
    SettleFirst(s, front, id, winner);
    SettleRowsCongruent(SettleOneOf(mid, id, winner), SettleRows(s1, front, winner), back, winner);
    SettleRowsSplit(s1, front, back, winner);
    var a, b := SettleRows(SettleOneOf(mid, id, winner), back, winner), SettleRows(SettleRows(s1, front, winner), back, winner);
    SameIsSymmetric(a, b);
  }

  lemma SameIsSymmetric(a: Settlement, b: Settlement)
    requires SameSettlement(a, b)
    ensures SameSettlement(b, a)
  {
  }

  // The outcome of a settlement is a function of which rows were selected, not of the
  // order in which the query returned them.
  lemma OrderIndependence(db: Db, matchId: Id, xs: seq<Id>, ys: seq<Id>, winner: Id)
    requires Selection(db, matchId, xs) && Selection(db, matchId, ys)
    requires forall id :: id in xs <==> id in ys
    ensures SameSettlement(SettleMatch(db, xs, winner), SettleMatch(db, ys, winner))
  {
    SameSetSameMultiset(xs, ys);
    OrderOfRows(Settlement(db, 0, 0, 0), xs, ys, winner);
  }

  lemma {:induction false} Multiplicity(xs: seq<Id>, x: Id)
    requires Distinct(xs)
    ensures multiset(xs)[x] == if x in xs then 1 else 0
  {
    if xs != [] {
      assert xs == [xs[0]] + xs[1..];
      Multiplicity(xs[1..], x);
    }
  }

  lemma SameSetSameMultiset(xs: seq<Id>, ys: seq<Id>)
    requires Distinct(xs) && Distinct(ys) && forall id :: id in xs <==> id in ys
    ensures multiset(xs) == multiset(ys)
  {
    forall x
      ensures multiset(xs)[x] == multiset(ys)[x]
    {
      Multiplicity(xs, x);
      Multiplicity(ys, x);
    }
  }

  // ------------------------------------------------- split over several calls

  // A call that skips the rows another one has locked settles the rest: two calls for
  // the same winner over disjoint selections make one call over both.
  lemma SplitSettlement(db: Db, matchId: Id, xs: seq<Id>, ys: seq<Id>, winner: Id)
    requires Inv(db) && Selection(db, matchId, xs + ys)
    ensures Selection(db, matchId, xs)
    ensures Selection(SettleMatch(db, xs, winner).db, matchId, ys)
    ensures var first := SettleMatch(db, xs, winner);
      var second := SettleMatch(first.db, ys, winner);
      SettleMatch(db, xs + ys, winner) ==
      Settlement(second.db, first.won + second.won, first.lost + second.lost, first.total + second.total)
  {
    PartsAreSelections(db, matchId, xs, ys);
    RestIsSelectable(db, matchId, xs, ys, winner);
    SplitRows(db, xs, ys, winner);
  }

  lemma SplitRows(db: Db, xs: seq<Id>, ys: seq<Id>, winner: Id)
    requires forall id | id in xs + ys :: id in db.bets
    requires forall id | id in xs :: id in db.bets
    requires forall id | id in ys :: id in SettleMatch(db, xs, winner).db.bets
    ensures var first := SettleMatch(db, xs, winner);
      var second := SettleMatch(first.db, ys, winner);
      SettleMatch(db, xs + ys, winner) ==
      Settlement(second.db, first.won + second.won, first.lost + second.lost, first.total + second.total)
  {
    hide SettleRows, SettleOne;
    SettleRowsSplit(Settlement(db, 0, 0, 0), xs, ys, winner);
    CountersAdd(SettleMatch(db, xs, winner), ys, winner);
  }

  lemma RestIsSelectable(db: Db, matchId: Id, xs: seq<Id>, ys: seq<Id>, winner: Id)
    requires Inv(db) && Selection(db, matchId, xs) && Selection(db, matchId, ys)
    requires forall id | id in ys :: id !in xs
    ensures Selection(SettleMatch(db, xs, winner).db, matchId, ys)
  {
    SettleRowsOk(Settlement(db, 0, 0, 0), xs, winner);
    hide SettleRows, Inv, Evolves;
    forall id | id in ys
      ensures Selectable(SettleMatch(db, xs, winner).db, matchId, id)
    {
      assert Selectable(db, matchId, id);
    }
  }

  lemma PartsAreSelections(db: Db, matchId: Id, xs: seq<Id>, ys: seq<Id>)
    requires Selection(db, matchId, xs + ys)
    ensures Selection(db, matchId, xs) && Selection(db, matchId, ys)
    ensures forall id | id in ys :: id !in xs
  {
    var rows := xs + ys;
    forall i | 0 <= i < |xs|
      ensures rows[i] == xs[i]
    {
    }
    forall j | 0 <= j < |ys|
      ensures rows[|xs| + j] == ys[j]
    {
    }
    assert forall id | id in xs :: id in rows;
    assert forall id | id in ys :: id in rows;
  }

  lemma {:induction false} CountersAdd(s: Settlement, rows: seq<Id>, winner: Id)
    requires forall id | id in rows :: id in s.db.bets
    ensures var alone := SettleMatch(s.db, rows, winner);
      SettleRows(s, rows, winner) ==
      Settlement(alone.db, s.won + alone.won, s.lost + alone.lost, s.total + alone.total)
  {
    if rows != [] {
      CountersAdd(s, rows[..|rows| - 1], winner);
      hide PayoutOf, CreditWallet;
    }
  }

  // After a settlement that skipped nothing, the next one selects nothing and changes
  // nothing.
  lemma SecondSettlementIsEmpty(db: Db, matchId: Id, rows: seq<Id>, winner: Id, again: seq<Id>, winner': Id)
    requires Inv(db) && Selection(db, matchId, rows)
    requires forall id | Selectable(db, matchId, id) :: id in rows
    requires Selection(SettleMatch(db, rows, winner).db, matchId, again)
    ensures again == []
    ensures SettleMatch(SettleMatch(db, rows, winner).db, again, winner').db == SettleMatch(db, rows, winner).db
  {
    if again != [] {
      NothingLeft(db, matchId, rows, winner, again[0]);
    }
  }

  lemma NothingLeft(db: Db, matchId: Id, rows: seq<Id>, winner: Id, id: Id)
    requires Inv(db) && Selection(db, matchId, rows)
    requires forall r | Selectable(db, matchId, r) :: r in rows
    ensures !Selectable(SettleMatch(db, rows, winner).db, matchId, id)
  {
    if id in rows {
      SettledRow(Settlement(db, 0, 0, 0), rows, id, winner);
    } else {
      SettleRowsOk(Settlement(db, 0, 0, 0), rows, winner);
    }
  }

  // ------------------------------------------------------------- total payout

  ghost function SumOfWallets(wallets: map<Id, int>): int {
    if wallets == map[] then
      0
    else
      var u :| u in wallets;
      wallets[u] + SumOfWallets(wallets - {u})
  }

  // The sum can take any wallet first.
  lemma {:induction false} SumTakes(wallets: map<Id, int>, u: Id)
    requires u in wallets
    ensures SumOfWallets(wallets) == wallets[u] + SumOfWallets(wallets - {u})
    decreases |wallets|
  {
    var v :| v in wallets && SumOfWallets(wallets) == wallets[v] + SumOfWallets(wallets - {v});
    if v != u {
      SumTakes(wallets - {v}, u);
      SumTakes(wallets - {u}, v);
      assert wallets - {v} - {u} == wallets - {u} - {v};
    }
  }

  lemma SumAfterCredit(wallets: map<Id, int>, u: Id, amount: int)
    requires u in wallets
    ensures SumOfWallets(CreditWallet(wallets, u, amount)) == SumOfWallets(wallets) + amount
  {
    var wallets' := CreditWallet(wallets, u, amount);
    SumTakes(wallets, u);
    SumTakes(wallets', u);
    assert wallets' - {u} == wallets - {u};
  }

  // total_payout_cents is exactly what the wallets gained together.
  lemma {:induction false} TotalIsWalletIncrease(s: Settlement, rows: seq<Id>, winner: Id)
    requires Inv(s.db) && Distinct(rows)
    requires forall id | id in rows :: id in s.db.bets && s.db.bets[id].status.BetAccepted?
    ensures var s' := SettleRows(s, rows, winner);
      SumOfWallets(s'.db.wallets) - SumOfWallets(s.db.wallets) == s'.total - s.total
  {
    hide PayoutOf, SumOfWallets;
    if rows != [] {
      var front, last := rows[..|rows| - 1], rows[|rows| - 1];
      TotalIsWalletIncrease(s, front, winner);
      SettleRowsOk(s, front, winner);
      var mid := SettleRows(s, front, winner);
      assert BetOk(mid.db, mid.db.bets[last]);
      SumAfterCredit(mid.db.wallets, mid.db.bets[last].user, PayoutOf(mid.db.bets[last]));
    }
  }

  lemma TotalPayout(db: Db, matchId: Id, rows: seq<Id>, winner: Id)
    requires Inv(db) && Selection(db, matchId, rows)
    ensures var s := SettleMatch(db, rows, winner);
      && s.total == SumOfWallets(s.db.wallets) - SumOfWallets(db.wallets)
      && s.won + s.lost == |rows|
  {
    TotalIsWalletIncrease(Settlement(db, 0, 0, 0), rows, winner);
    CountRows(Settlement(db, 0, 0, 0), rows, winner);
  }

  lemma {:induction false} CountRows(s: Settlement, rows: seq<Id>, winner: Id)
    requires forall id | id in rows :: id in s.db.bets
    ensures var s' := SettleRows(s, rows, winner); s'.won + s'.lost == s.won + s.lost + |rows|
  {
    hide PayoutOf, CreditWallet;
    if rows != [] {
      CountRows(s, rows[..|rows| - 1], winner);
    }
  }
}
