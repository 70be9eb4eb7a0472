/**
 The AI-credit balance row and its append-only ledger.

 `After...` functions give what one repository call leaves in the two tables, including the
 writes that fail; the class performs the calls. Amounts are int64 micros, added as Go adds them.
 */
module CreditLedger {
  import opened Collections

  const MAX64: int := 0x7FFF_FFFF_FFFF_FFFF
  const MIN64: int := -0x8000_0000_0000_0000

  type Micros = x: int | MIN64 <= x <= MAX64

  function Wrap64(x: int): Micros {
    (x - MIN64) % 0x1_0000_0000_0000_0000 + MIN64
  }

  datatype Credits = Credits(balance: Micros, welcomeGranted: bool)

  datatype Row = Row(account: nat, amount: Micros, kind: string, balanceAfter: Micros, key: string)

  datatype Entry = Entry(amount: Micros, kind: string, key: string)

  datatype State = State(accounts: map<nat, Credits>, ledger: seq<Row>)

  datatype Error = BadRequest | WriteFailed

  /** Which of a call's writes to the replicated log succeed. */
  datatype Writes = Writes(ensure: bool, balance: bool, ledger: bool)

  predicate HasKey(ledger: seq<Row>, key: string) {
    exists i :: 0 <= i < |ledger| && ledger[i].key == key
  }

  function Digits(n: nat): string {
    if n < 10 then [('0' as int + n) as char] else Digits(n / 10) + [('0' as int + n % 10) as char]
  }

  function WelcomeKey(account: nat): string { "welcome:" + Digits(account) }

  /** The ledger insert; the unique index refuses a non-empty key that is already there. */
  function Inserted(ledger: seq<Row>, row: Row, ok: bool): seq<Row> {
    if !ok || (row.key != "" && HasKey(ledger, row.key)) then ledger else ledger + [row]
  }

  function AfterEnsure(s: State, account: nat, welcome: Micros, w: Writes): State {
    if account == 0 || account in s.accounts || !w.ensure then s
    else if welcome > 0 then
      State(s.accounts[account := Credits(welcome, true)],
            Inserted(s.ledger, Row(account, welcome, "welcome", welcome, WelcomeKey(account)), w.ledger))
    else s.(accounts := s.accounts[account := Credits(0, false)])
  }

  function NewBalance(balance: Micros, amount: Micros): Micros {
    var sum := Wrap64(balance + amount);
    if sum < 0 then 0 else sum
  }

  function AfterApplyDelta(s: State, account: nat, e: Entry, w: Writes): State {
    var t := AfterEnsure(s, account, 0, w);
    if account !in t.accounts || account == 0 || (e.key != "" && HasKey(t.ledger, e.key)) || !w.balance then t
    else
      var newBalance := NewBalance(t.accounts[account].balance, e.amount);
      State(t.accounts[account := t.accounts[account].(balance := newBalance)],
            Inserted(t.ledger, Row(account, e.amount, e.kind, newBalance, e.key), w.ledger))
  }

  function Without(ledger: seq<Row>, account: nat): seq<Row> {
    if ledger == [] then []
    else
      var last := ledger[|ledger| - 1];
      Without(ledger[..|ledger| - 1], account) + if last.account == account then [] else [last]
  }

  /** The ledger's rows go first; either delete can fail and ends the call. */
  function AfterDelete(s: State, account: nat, w: Writes): State {
    if account == 0 || !w.ledger then s
    else if !w.balance then s.(ledger := Without(s.ledger, account))
    else State(s.accounts - {account}, Without(s.ledger, account))
  }

  /** A delta whose non-empty key the ledger has already. */
  predicate Repeated(ledger: seq<Row>, e: Entry) {
    e.key != "" && HasKey(ledger, e.key)
  }

  /** The account's balance row, or the one Ensure makes without a welcome. */
  function OrNew(accounts: map<nat, Credits>, account: nat): Credits {
    if account in accounts then accounts[account] else Credits(0, false)
  }

  /** Exactly the account's rows go. */
  lemma {:induction false} WithoutOnly(ledger: seq<Row>, account: nat)
    ensures forall row :: multiset(Without(ledger, account))[row] == if row.account == account then 0 else multiset(ledger)[row]
    ensures forall row :: row in Without(ledger, account) ==> row.account != account
  {
    if ledger != [] {
      var n := |ledger| - 1;
      WithoutOnly(ledger[..n], account);
      assert ledger == ledger[..n] + [ledger[n]];
    }
  }

  /** int64 arithmetic is arithmetic modulo 2 to the 64. */
  lemma WrapsAround(x: int)
    ensures (Wrap64(x) - x) % 0x1_0000_0000_0000_0000 == 0
    ensures MIN64 <= x <= MAX64 ==> Wrap64(x) == x
  {
  }

  /** The number a text of digits spells. */
  function Spelled(digits: string): int {
    if digits == "" then 0 else 10 * Spelled(digits[..|digits| - 1]) + (digits[|digits| - 1] as int - '0' as int)
  }

  lemma {:induction false} DigitsSpell(n: nat)
    ensures Spelled(Digits(n)) == n
    ensures forall i :: 0 <= i < |Digits(n)| ==> '0' <= Digits(n)[i] <= '9'
  {
    var d := Digits(n);
    if n < 10 {
      assert d[..0] == "";
    } else {
      DigitsSpell(n / 10);
      assert d[..|d| - 1] == Digits(n / 10);
    }
  }

  /** No two accounts share a welcome key, so that granting one never suppresses the other's row. */
  lemma WelcomeKeysDiffer(a: nat, b: nat)
    requires a != b
    ensures WelcomeKey(a) != WelcomeKey(b)
  {
    DigitsSpell(a);
    DigitsSpell(b);
    assert WelcomeKey(a)[|"welcome:"|..] == Digits(a);
    assert WelcomeKey(b)[|"welcome:"|..] == Digits(b);
  }

  class CreditsRepo {
    var accounts: map<nat, Credits>
    var ledger: seq<Row>

    constructor ()
      ensures Tables() == State(map[], [])
    {
      accounts, ledger := map[], [];
    }

    function Tables(): State
      reads this
    {
      State(accounts, ledger)
    }

    method Ensure(account: nat, welcome: Micros, w: Writes) returns (r: Result<Credits, Error>)
      modifies this
      ensures Tables() == AfterEnsure(old(Tables()), account, welcome, w)
      ensures account in old(accounts) || account == 0 || !w.ensure ==> Tables() == old(Tables())
      ensures account != 0 && account in old(accounts) ==> r == Ok(old(accounts)[account])
      ensures account != 0 && account !in old(accounts) && !w.ensure ==> r == Err(WriteFailed)
      ensures account != 0 && account !in old(accounts) && w.ensure ==>
                && r == Ok(Credits(if welcome > 0 then welcome else 0, welcome > 0))
                && accounts == old(accounts)[account := r.value]
                && ledger == old(ledger)
                   + (if welcome > 0 && w.ledger && !HasKey(old(ledger), WelcomeKey(account))
                      then [Row(account, welcome, "welcome", welcome, WelcomeKey(account))] else [])
      ensures r.Ok? <==> account != 0 && account in accounts
      ensures r.Ok? ==> r.value == accounts[account]
      ensures r == Err(BadRequest) <==> account == 0
    {
      if account == 0 {
        return Err(BadRequest);
      }
      if account in accounts {
        return Ok(accounts[account]);
      }
      var welcomeGranted := welcome > 0;
      var balance: Micros := 0;
      if welcomeGranted {
        balance := welcome;
      }
      if !w.ensure {
        return Err(WriteFailed);
      }
      accounts := accounts[account := Credits(balance, welcomeGranted)];
      if welcomeGranted {
        InsertLedger(Row(account, welcome, "welcome", balance, WelcomeKey(account)), w.ledger);
      }
      return Ok(Credits(balance, welcomeGranted));
    }

    method InsertLedger(row: Row, ok: bool)
      modifies this`ledger
      ensures ledger == Inserted(old(ledger), row, ok)
    {
      if ok && !(row.key != "" && HasKey(ledger, row.key)) {
        ledger := ledger + [row];
      }
    }

    method ApplyDelta(account: nat, e: Entry, w: Writes) returns (r: Result<Credits, Error>)
      modifies this
      ensures Tables() == AfterApplyDelta(old(Tables()), account, e, w)
      ensures r == Err(WriteFailed) <==> account != 0 && (if account in old(accounts) then !w.balance && !Repeated(old(ledger), e) else !w.ensure || (!w.balance && !Repeated(old(ledger), e)))
      ensures account != 0 && (account in old(accounts) || w.ensure) && (Repeated(old(ledger), e) || !w.balance) ==>
                ledger == old(ledger) && accounts == old(accounts)[account := old(OrNew(accounts, account))]
      ensures account != 0 && (account in old(accounts) || w.ensure) && !Repeated(old(ledger), e) && w.balance ==>
                var before := old(OrNew(accounts, account));
                && r.Ok? && accounts == old(accounts)[account := before.(balance := r.value.balance)]
                && (MIN64 <= before.balance + e.amount <= MAX64 ==>
                      r.value.balance == if before.balance + e.amount < 0 then 0 else before.balance + e.amount)
                && ledger == old(ledger) + (if w.ledger then [Row(account, e.amount, e.kind, r.value.balance, e.key)] else [])
      ensures r.Ok? ==> account in accounts && r.value == accounts[account]
      ensures r.Err? ==> account in old(accounts) ==> Tables() == old(Tables())
      ensures r == Err(BadRequest) <==> account == 0
    {
      var ensured := Ensure(account, 0, w);
      if ensured.Err? {
        return Err(ensured.error);
      }
      var record := ensured.value;
      if e.key != "" {
        var exists_ := HasKey(ledger, e.key);
        if exists_ {
          return Ok(record);
        }
      }
      var newBalance := Wrap64(record.balance + e.amount);
      if newBalance < 0 {
        newBalance := 0;
      }
      if !w.balance {
        return Err(WriteFailed);
      }
      accounts := accounts[account := accounts[account].(balance := newBalance)];
      InsertLedger(Row(account, e.amount, e.kind, newBalance, e.key), w.ledger);
      record := record.(balance := newBalance);
      return Ok(record);
    }

    method DeleteByAccountId(account: nat, w: Writes) returns (r: Result<(), Error>)
      modifies this
      ensures Tables() == AfterDelete(old(Tables()), account, w)
      ensures r.Ok? <==> account != 0 && w.ledger && w.balance
      ensures r.Ok? ==> account !in accounts && forall row :: row in ledger ==> row.account != account
      ensures r.Err? ==> accounts == old(accounts)
      ensures account == 0 || !w.ledger ==> Tables() == old(Tables())
      ensures forall a :: a != account ==> (a in accounts <==> a in old(accounts)) && (a in accounts ==> accounts[a] == old(accounts)[a])
      ensures forall row: Row :: row.account != account ==> multiset(ledger)[row] == multiset(old(ledger))[row]
    {
      if account == 0 {
        return Err(BadRequest);
      }
      if !w.ledger {
        return Err(WriteFailed);
      }
      WithoutOnly(ledger, account);
      ledger := Without(ledger, account);
      if !w.balance {
        return Err(WriteFailed);
      }
      accounts := accounts - {account};
      return Ok(());
    }
  }

  // The closed form of a clamped running balance.

  function Sum(amounts: seq<int>): int {
    if amounts == [] then 0 else Sum(amounts[..|amounts| - 1]) + amounts[|amounts| - 1]
  }

  /** The balance after every step is clamped at zero. */
  function Clamped(amounts: seq<int>): int {
    if amounts == [] then 0
    else
      var next := Clamped(amounts[..|amounts| - 1]) + amounts[|amounts| - 1];
      if next < 0 then 0 else next
  }

  /** m is the smallest prefix sum, the empty prefix included. */
  predicate IsLeastPrefixSum(amounts: seq<int>, m: int) {
    && (exists k :: 0 <= k <= |amounts| && m == Sum(amounts[..k]))
    && (forall k :: 0 <= k <= |amounts| ==> m <= Sum(amounts[..k]))
  }

  function Least(amounts: seq<int>): int {
    if amounts == [] then 0
    else
      var before := Least(amounts[..|amounts| - 1]);
      if Sum(amounts) < before then Sum(amounts) else before
  }

  lemma {:induction false} LeastIsLeast(amounts: seq<int>)
    ensures IsLeastPrefixSum(amounts, Least(amounts))
  {
    assert amounts[..0] == [] && amounts[..|amounts|] == amounts;
    if amounts == [] {
      assert Least(amounts) == Sum(amounts[..0]);
    } else {
      var before := amounts[..|amounts| - 1];
      LeastIsLeast(before);
      forall k | 0 <= k <= |before| ensures amounts[..k] == before[..k] {}
      var k :| 0 <= k <= |before| && Least(before) == Sum(before[..k]);
      assert Least(amounts) == Sum(amounts[..if Sum(amounts) < Least(before) then |amounts| else k]);
      forall k | 0 <= k <= |amounts| ensures Least(amounts) <= Sum(amounts[..k]) {
        assert k <= |before| ==> amounts[..k] == before[..k];
      }
    }
  }

  lemma {:induction false} ClampedIsAboveLeast(amounts: seq<int>)
    ensures Clamped(amounts) == Sum(amounts) - Least(amounts)
    ensures Least(amounts) <= 0 && Least(amounts) <= Sum(amounts)
  {
    if amounts != [] {
      ClampedIsAboveLeast(amounts[..|amounts| - 1]);
    }
  }

  /** The balance is the plain sum, less the smallest prefix sum. */
  lemma ClosedForm(amounts: seq<int>, m: int)
    requires IsLeastPrefixSum(amounts, m)
    ensures Clamped(amounts) == Sum(amounts) - m
    ensures m <= 0 && Clamped(amounts) >= 0 && Clamped(amounts) >= Sum(amounts)
  {
    LeastIsLeast(amounts);
    ClampedIsAboveLeast(amounts);
    var j :| 0 <= j <= |amounts| && m == Sum(amounts[..j]);
    var k :| 0 <= k <= |amounts| && Least(amounts) == Sum(amounts[..k]);
    assert m == Least(amounts);
  }

  // The tables agree.

  function Amounts(ledger: seq<Row>, account: nat): seq<int> {
    if ledger == [] then []
    else
      var last := ledger[|ledger| - 1];
      Amounts(ledger[..|ledger| - 1], account) + if last.account == account then [last.amount as int] else []
  }

  /** Every row's snapshot is the clamped balance of its account's rows up to and including it. */
  predicate RowsAgree(ledger: seq<Row>) {
    ledger != [] ==>
      var last := ledger[|ledger| - 1];
      RowsAgree(ledger[..|ledger| - 1]) && last.balanceAfter == Clamped(Amounts(ledger, last.account))
  }

  predicate KeysUnique(ledger: seq<Row>) {
    forall i, j :: 0 <= i < j < |ledger| && ledger[i].key != "" ==> ledger[i].key != ledger[j].key
  }

  ghost predicate BalancesAgree(s: State) {
    forall a :: a in s.accounts ==> s.accounts[a].balance == Clamped(Amounts(s.ledger, a))
  }

  predicate RowsOwned(s: State) {
    0 !in s.accounts && forall i :: 0 <= i < |s.ledger| ==> s.ledger[i].account in s.accounts
  }

  ghost predicate Consistent(s: State) {
    && BalancesAgree(s)
    && RowsOwned(s)
    && RowsAgree(s.ledger)
    && KeysUnique(s.ledger)
  }

  lemma AmountsAppend(ledger: seq<Row>, row: Row, account: nat)
    ensures Amounts(ledger + [row], account) == Amounts(ledger, account) + if row.account == account then [row.amount as int] else []
  {
  }

  lemma ClampedAppend(amounts: seq<int>, a: int)
    ensures Clamped(amounts + [a]) == if Clamped(amounts) + a < 0 then 0 else Clamped(amounts) + a
  {
  }

  lemma {:induction false} NoRowsNoAmounts(ledger: seq<Row>, account: nat)
    requires forall i :: 0 <= i < |ledger| ==> ledger[i].account != account
    ensures Amounts(ledger, account) == []
  {
    if ledger != [] {
      NoRowsNoAmounts(ledger[..|ledger| - 1], account);
    }
  }

  lemma ClampedNonNegative(amounts: seq<int>)
    ensures Clamped(amounts) >= 0
  {
  }

  lemma RowsAppend(ledger: seq<Row>, row: Row)
    requires RowsAgree(ledger) && row.balanceAfter == Clamped(Amounts(ledger, row.account) + [row.amount as int])
    ensures RowsAgree(ledger + [row])
  {
  }

  lemma KeysAppend(ledger: seq<Row>, row: Row)
    requires KeysUnique(ledger) && (row.key == "" || !HasKey(ledger, row.key))
    ensures KeysUnique(ledger + [row])
  {
  }

  lemma BalancesAppend(s: State, credits: Credits, row: Row)
    requires BalancesAgree(s) && RowsOwned(s) && row.account != 0
    requires credits.balance == Clamped(Amounts(s.ledger, row.account) + [row.amount as int])
    ensures BalancesAgree(State(s.accounts[row.account := credits], s.ledger + [row]))
    ensures RowsOwned(State(s.accounts[row.account := credits], s.ledger + [row]))
  {
    var t := State(s.accounts[row.account := credits], s.ledger + [row]);
    forall a | a in t.accounts ensures t.accounts[a].balance == Clamped(Amounts(t.ledger, a)) {
      AmountsAppend(s.ledger, row, a);
      if a != row.account {
        assert Amounts(s.ledger, a) + [] == Amounts(s.ledger, a);
      }
    }
    OwnedAppend(s, credits, row);
  }

  lemma OwnedAppend(s: State, credits: Credits, row: Row)
    requires RowsOwned(s) && row.account != 0
    ensures RowsOwned(State(s.accounts[row.account := credits], s.ledger + [row]))
  {
  }

  /** Appending a row whose snapshot is the account's new balance keeps the tables in agreement. */
  lemma AppendConsistent(s: State, credits: Credits, row: Row)
    requires Consistent(s) && row.account != 0
    requires row.key == "" || !HasKey(s.ledger, row.key)
    requires credits.balance == row.balanceAfter
    requires row.balanceAfter == Clamped(Amounts(s.ledger, row.account) + [row.amount as int])
    ensures Consistent(State(s.accounts[row.account := credits], s.ledger + [row]))
  {
    BalancesAppend(s, credits, row);
    RowsAppend(s.ledger, row);
    KeysAppend(s.ledger, row);
  }

  /** What a caller can check before Ensure: the account exists, or no welcome is granted, or its ledger row will go in. */
  predicate EnsureIsSound(s: State, account: nat, welcome: Micros, w: Writes) {
    account == 0 || account in s.accounts || !w.ensure || welcome <= 0
    || (w.ledger && !HasKey(s.ledger, WelcomeKey(account)))
  }

  /** Ensure keeps the tables in agreement exactly when the welcome row, if one is due, is written. */
  lemma EnsureConsistent(s: State, account: nat, welcome: Micros, w: Writes)
    requires Consistent(s)
    ensures Consistent(AfterEnsure(s, account, welcome, w)) <==> EnsureIsSound(s, account, welcome, w)
  {
    if account != 0 && account !in s.accounts && w.ensure {
      NoRowsNoAmounts(s.ledger, account);
      if welcome > 0 {
        var row := Row(account, welcome, "welcome", welcome, WelcomeKey(account));
        ClampedAppend([], welcome);
        assert [] + [welcome as int] == [welcome as int];
        if EnsureIsSound(s, account, welcome, w) {
          AppendConsistent(s, Credits(welcome, true), row);
        } else {
          assert AfterEnsure(s, account, welcome, w).ledger == s.ledger;
          assert AfterEnsure(s, account, welcome, w).accounts[account].balance != Clamped(Amounts(s.ledger, account));
        }
      }
    }
  }

  /** Whether ApplyDelta gets as far as changing a balance. */
  predicate DeltaApplies(s: State, account: nat, e: Entry, w: Writes) {
    && account != 0
    && (account in s.accounts || w.ensure)
    && (e.key == "" || !HasKey(s.ledger, e.key))
    && w.balance
  }

  function BalanceOf(s: State, account: nat): Micros {
    if account in s.accounts then s.accounts[account].balance else 0
  }

  /** What a caller can check before ApplyDelta: no int64 overflow, and the ledger row goes in or records nothing. */
  predicate DeltaIsSound(s: State, account: nat, e: Entry, w: Writes) {
    DeltaApplies(s, account, e, w) ==>
      if w.ledger then BalanceOf(s, account) + e.amount <= MAX64
      else NewBalance(BalanceOf(s, account), e.amount) == BalanceOf(s, account)
  }

  /** int64 addition and the clamp give the mathematical clamp exactly while the sum fits. */
  lemma NewBalanceExact(balance: Micros, amount: Micros)
    requires balance >= 0
    ensures balance + amount <= MAX64 <==>
            NewBalance(balance, amount) == if balance + amount < 0 then 0 else balance + amount
  {
  }

  /** The same once the account row is there: t is what Ensure left. */
  lemma FreshDeltaConsistent(t: State, account: nat, e: Entry, ledgerOk: bool)
    requires Consistent(t) && account in t.accounts && (e.key == "" || !HasKey(t.ledger, e.key))
    ensures var balance := t.accounts[account].balance;
            var newBalance := NewBalance(balance, e.amount);
            Consistent(State(t.accounts[account := t.accounts[account].(balance := newBalance)],
                             Inserted(t.ledger, Row(account, e.amount, e.kind, newBalance, e.key), ledgerOk)))
            <==> if ledgerOk then balance + e.amount <= MAX64 else newBalance == balance
  {
    var balance := t.accounts[account].balance;
    var newBalance := NewBalance(balance, e.amount);
    var credits := t.accounts[account].(balance := newBalance);
    if ledgerOk {
      RecordedDelta(t, credits, Row(account, e.amount, e.kind, newBalance, e.key));
    } else if newBalance == balance {
      assert t.accounts[account := credits] == t.accounts;
    } else {
      WrongBalance(State(t.accounts[account := credits], t.ledger), account);
    }
  }

  lemma WrongBalance(s: State, account: nat)
    requires account in s.accounts && s.accounts[account].balance != Clamped(Amounts(s.ledger, account))
    ensures !Consistent(s)
  {
  }

  lemma RecordedDelta(t: State, credits: Credits, row: Row)
    requires Consistent(t) && row.account in t.accounts && (row.key == "" || !HasKey(t.ledger, row.key))
    requires credits.balance == row.balanceAfter == NewBalance(t.accounts[row.account].balance, row.amount)
    ensures Consistent(State(t.accounts[row.account := credits], t.ledger + [row]))
            <==> t.accounts[row.account].balance + row.amount <= MAX64
  {
    var before := Amounts(t.ledger, row.account);
    ClampedNonNegative(before);
    ClampedAppend(before, row.amount);
    NewBalanceExact(t.accounts[row.account].balance, row.amount);
    if t.accounts[row.account].balance + row.amount <= MAX64 {
      AppendConsistent(t, credits, row);
    } else {
      AmountsAppend(t.ledger, row, row.account);
      WrongBalance(State(t.accounts[row.account := credits], t.ledger + [row]), row.account);
    }
  }

  /** ApplyDelta keeps the tables in agreement exactly under that check. */
  lemma DeltaConsistent(s: State, account: nat, e: Entry, w: Writes)
    requires Consistent(s)
    ensures Consistent(AfterApplyDelta(s, account, e, w)) <==> DeltaIsSound(s, account, e, w)
  {
    var t := AfterEnsure(s, account, 0, w);
    EnsureConsistent(s, account, 0, w);
    if DeltaApplies(s, account, e, w) {
      FreshDeltaConsistent(t, account, e, w.ledger);
    }
  }

  lemma {:induction false} WithoutAmounts(ledger: seq<Row>, account: nat, a: nat)
    ensures Amounts(Without(ledger, account), a) == if a == account then [] else Amounts(ledger, a)
  {
    if ledger != [] {
      var before, last := ledger[..|ledger| - 1], ledger[|ledger| - 1];
      WithoutAmounts(before, account, a);
      AmountsAppend(Without(before, account), last, a);
      assert Without(before, account) + [] == Without(before, account);
      assert Amounts(before, a) + [] == Amounts(before, a);
    }
  }

  lemma {:induction false} WithoutRows(ledger: seq<Row>, account: nat)
    requires RowsAgree(ledger)
    ensures RowsAgree(Without(ledger, account))
  {
    if ledger != [] {
      var before, last := ledger[..|ledger| - 1], ledger[|ledger| - 1];
      WithoutRows(before, account);
      if last.account != account {
        WithoutAmounts(before, account, last.account);
        RowsAppend(Without(before, account), last);
      } else {
        assert Without(before, account) + [] == Without(before, account);
      }
    }
  }

  lemma {:induction false} WithoutOthers(ledger: seq<Row>, account: nat, r: Row)
    requires r in Without(ledger, account)
    ensures r in ledger && r.account != account
  {
    var before, last := ledger[..|ledger| - 1], ledger[|ledger| - 1];
    if r in Without(before, account) {
      WithoutOthers(before, account, r);
    } else {
      assert r == last;
    }
  }

  lemma {:induction false} WithoutKeys(ledger: seq<Row>, account: nat)
    requires KeysUnique(ledger)
    ensures KeysUnique(Without(ledger, account))
  {
    if ledger != [] {
      var before, last := ledger[..|ledger| - 1], ledger[|ledger| - 1];
      assert KeysUnique(before);
      WithoutKeys(before, account);
      var kept := Without(before, account);
      forall i | 0 <= i < |kept| ensures kept[i].key != "" ==> kept[i].key != last.key {
        WithoutOthers(before, account, kept[i]);
      }
    }
  }

  /** The ledger without an account's rows is in order by itself. */
  lemma WithoutConsistent(s: State, account: nat)
    requires Consistent(s)
    ensures var kept := Without(s.ledger, account);
            && RowsAgree(kept) && KeysUnique(kept)
            && forall i :: 0 <= i < |kept| ==> kept[i].account in s.accounts && kept[i].account != account
  {
    var kept := Without(s.ledger, account);
    WithoutRows(s.ledger, account);
    WithoutKeys(s.ledger, account);
    forall i | 0 <= i < |kept| ensures kept[i].account in s.accounts && kept[i].account != account {
      WithoutOthers(s.ledger, account, kept[i]);
    }
  }

  /** The remaining balances agree with the remaining rows if the account's own is gone or zero. */
  lemma WithoutBalances(s: State, t: State, account: nat)
    requires BalancesAgree(s) && t.ledger == Without(s.ledger, account)
    requires forall a :: a in t.accounts ==> a in s.accounts && t.accounts[a] == s.accounts[a]
    requires account in t.accounts ==> t.accounts[account].balance == 0
    ensures BalancesAgree(t)
  {
    forall a | a in t.accounts ensures t.accounts[a].balance == Clamped(Amounts(t.ledger, a)) {
      WithoutAmounts(s.ledger, account, a);
    }
  }

  /** Deleting an account keeps the tables in agreement exactly if its balance row goes too, or held nothing. */
  lemma DeleteConsistent(s: State, account: nat, w: Writes)
    requires Consistent(s)
    ensures Consistent(AfterDelete(s, account, w)) <==> (w.ledger && !w.balance ==> BalanceOf(s, account) == 0)
  {
    if account != 0 && w.ledger {
      var t := AfterDelete(s, account, w);
      if !w.balance && BalanceOf(s, account) != 0 {
        WithoutAmounts(s.ledger, account, account);
        WrongBalance(t, account);
      } else {
        WithoutConsistent(s, account);
        WithoutBalances(s, t, account);
      }
    }
  }

  // Whole runs of serialised calls.

  datatype Call =
    | Ensure(account: nat, welcome: Micros, w: Writes)
    | ApplyDelta(account: nat, e: Entry, w: Writes)
    | Delete(account: nat, w: Writes)

  function After(s: State, c: Call): State {
    match c
    case Ensure(account, welcome, w) => AfterEnsure(s, account, welcome, w)
    case ApplyDelta(account, e, w) => AfterApplyDelta(s, account, e, w)
    case Delete(account, w) => AfterDelete(s, account, w)
  }

  predicate Sound(s: State, c: Call) {
    match c
    case Ensure(account, welcome, w) => EnsureIsSound(s, account, welcome, w)
    case ApplyDelta(account, e, w) => DeltaIsSound(s, account, e, w)
    case Delete(account, w) => w.ledger && !w.balance ==> BalanceOf(s, account) == 0
  }

  function Run(s: State, calls: seq<Call>): State
    decreases |calls|
  {
    if calls == [] then s else Run(After(s, calls[0]), calls[1..])
  }

  predicate SoundRun(s: State, calls: seq<Call>)
    decreases |calls|
  {
    calls == [] || (Sound(s, calls[0]) && SoundRun(After(s, calls[0]), calls[1..]))
  }

  lemma StepConsistent(s: State, c: Call)
    requires Consistent(s)
    ensures Consistent(After(s, c)) <==> Sound(s, c)
  {
    match c
    case Ensure(account, welcome, w) => EnsureConsistent(s, account, welcome, w);
    case ApplyDelta(account, e, w) => DeltaConsistent(s, account, e, w);
    case Delete(account, w) => DeleteConsistent(s, account, w);
  }

  lemma {:induction false} RunConsistent(s: State, calls: seq<Call>)
    requires Consistent(s) && SoundRun(s, calls)
    ensures Consistent(Run(s, calls))
    decreases |calls|
  {
    if calls != [] {
      StepConsistent(s, calls[0]);
      RunConsistent(After(s, calls[0]), calls[1..]);
    }
  }

  lemma {:induction false} RowsAgreeAt(ledger: seq<Row>, k: nat)
    requires RowsAgree(ledger) && k < |ledger|
    ensures ledger[k].balanceAfter == Clamped(Amounts(ledger[..k + 1], ledger[k].account))
  {
    if k == |ledger| - 1 {
      assert ledger[..k + 1] == ledger;
    } else {
      var before := ledger[..|ledger| - 1];
      RowsAgreeAt(before, k);
      assert before[..k + 1] == ledger[..k + 1];
    }
  }

  /** After any sound run the balance has the closed form over the account's ledger amounts. */
  lemma BalanceClosedForm(calls: seq<Call>, account: nat, m: int)
    requires SoundRun(State(map[], []), calls)
    requires account in Run(State(map[], []), calls).accounts
    requires IsLeastPrefixSum(Amounts(Run(State(map[], []), calls).ledger, account), m)
    ensures var t := Run(State(map[], []), calls);
            var total := Sum(Amounts(t.ledger, account));
            && t.accounts[account].balance == total - m
            && t.accounts[account].balance >= 0
            && t.accounts[account].balance >= total
  {
    RunConsistent(State(map[], []), calls);
    ClosedForm(Amounts(Run(State(map[], []), calls).ledger, account), m);
  }

  /** And so has every row's snapshot over the rows up to it. */
  lemma SnapshotClosedForm(calls: seq<Call>, k: nat, m: int)
    requires SoundRun(State(map[], []), calls)
    requires k < |Run(State(map[], []), calls).ledger|
    requires var t := Run(State(map[], []), calls);
             IsLeastPrefixSum(Amounts(t.ledger[..k + 1], t.ledger[k].account), m)
    ensures var t := Run(State(map[], []), calls);
            t.ledger[k].balanceAfter == Sum(Amounts(t.ledger[..k + 1], t.ledger[k].account)) - m
  {
    var t := Run(State(map[], []), calls);
    RunConsistent(State(map[], []), calls);
    RowsAgreeAt(t.ledger, k);
    ClosedForm(Amounts(t.ledger[..k + 1], t.ledger[k].account), m);
  }

  // Idempotency keys.

  predicate Recorded(s: State, account: nat, key: string) {
    && account in s.accounts
    && exists i :: 0 <= i < |s.ledger| && s.ledger[i].key == key && s.ledger[i].account == account
  }

  lemma {:induction false} WithoutKeeps(ledger: seq<Row>, account: nat, i: nat)
    requires i < |ledger| && ledger[i].account != account
    ensures ledger[i] in Without(ledger, account)
  {
    if i < |ledger| - 1 {
      WithoutKeeps(ledger[..|ledger| - 1], account, i);
    }
  }

  lemma StepRecorded(s: State, c: Call, account: nat, key: string)
    requires Recorded(s, account, key) && !(c.Delete? && c.account == account)
    ensures Recorded(After(s, c), account, key)
  {
    var i :| 0 <= i < |s.ledger| && s.ledger[i].key == key && s.ledger[i].account == account;
    var t := After(s, c);
    if c.Delete? {
      if c.account != 0 && c.w.ledger {
        WithoutKeeps(s.ledger, c.account, i);
        var j :| 0 <= j < |t.ledger| && t.ledger[j] == s.ledger[i];
        assert t.ledger[j].key == key && t.ledger[j].account == account;
      }
    } else {
      assert s.ledger <= t.ledger;
      assert t.ledger[i].key == key && t.ledger[i].account == account;
    }
  }

  /**
   Once a key is recorded, a later call with it changes neither table, whatever calls come in
   between, unless the account was deleted.
   */
  lemma {:induction false} RetryIsNoOp(s: State, between: seq<Call>, account: nat, e: Entry, w: Writes)
    requires e.key != "" && Recorded(s, account, e.key)
    requires forall c :: c in between ==> !(c.Delete? && c.account == account)
    ensures AfterApplyDelta(Run(s, between), account, e, w) == Run(s, between)
    decreases |between|
  {
    if between == [] {
      assert HasKey(s.ledger, e.key);
    } else {
      assert between[0] in between;
      StepRecorded(s, between[0], account, e.key);
      RetryIsNoOp(After(s, between[0]), between[1..], account, e, w);
    }
  }

  /** A call whose three writes succeed leaves its key recorded, so the retry above applies. */
  lemma SuccessRecords(s: State, account: nat, e: Entry)
    requires account != 0 && e.key != "" && !HasKey(s.ledger, e.key)
    ensures Recorded(AfterApplyDelta(s, account, e, Writes(true, true, true)), account, e.key)
  {
    var t := AfterApplyDelta(s, account, e, Writes(true, true, true));
    assert t.ledger[|s.ledger|].key == e.key;
  }
}
