/**
 * Hierarchical budgets as books. An account is opened with a grant, spends on its own behalf, is
 * charged for what was already done, or funds a new account out of what remains.
 */
module Ledger {

  datatype Account = Account(granted: nat, spent: nat, own: nat, charged: nat, funder: Origin)

  /** Whose grant an account was carved from. */
  datatype Origin = Kernel | From(index: nat)

  predicate FundersFirst(books: seq<Account>) {
    forall c :: 0 <= c < |books| && books[c].funder.From? ==> books[c].funder.index < c
  }

  /** What account `i` gave away to the first `n` accounts. */
  function Carved(books: seq<Account>, i: nat, n: nat): nat
    requires n <= |books|
  {
    if n == 0 then 0
    else Carved(books, i, n - 1) + if books[n - 1].funder == From(i) then books[n - 1].granted else 0
  }

  /** Every account has spent exactly its own outlay and what it carved, within grant and charges. */
  ghost predicate Balanced(books: seq<Account>) {
    && FundersFirst(books)
    && forall i :: 0 <= i < |books| ==>
         && books[i].spent == books[i].own + Carved(books, i, |books|)
         && books[i].spent <= books[i].granted + books[i].charged
  }

  /** Account `i` is `root`, or was funded by an account under it. */
  ghost predicate Under(books: seq<Account>, i: nat, root: nat)
    requires FundersFirst(books) && i < |books|
  {
    i == root || (books[i].funder.From? && Under(books, books[i].funder.index, root))
  }

  ghost function OwnUnder(books: seq<Account>, root: nat, n: nat): nat
    requires FundersFirst(books) && n <= |books|
  {
    if n == 0 then 0 else OwnUnder(books, root, n - 1) + if Under(books, n - 1, root) then books[n - 1].own else 0
  }

  ghost function ChargedUnder(books: seq<Account>, root: nat, n: nat): nat
    requires FundersFirst(books) && n <= |books|
  {
    if n == 0 then 0
      else ChargedUnder(books, root, n - 1) + if Under(books, n - 1, root) then books[n - 1].charged else 0
  }

  /** What the accounts under `root` carved for the first `m` accounts. */
  ghost function CarvedUnder(books: seq<Account>, root: nat, m: nat, n: nat): nat
    requires FundersFirst(books) && m <= |books| && n <= |books|
    decreases n
  {
    if n == 0 then 0
    else CarvedUnder(books, root, m, n - 1) + if Under(books, n - 1, root) then Carved(books, n - 1, m) else 0
  }

  /** What was granted to the first `m` accounts by accounts under `root`. */
  ghost function FundedUnder(books: seq<Account>, root: nat, m: nat): nat
    requires FundersFirst(books) && m <= |books|
  {
    if m == 0 then 0
    else FundedUnder(books, root, m - 1) +
         if books[m - 1].funder.From? && Under(books, books[m - 1].funder.index, root) then books[m - 1].granted else 0
  }

  lemma {:induction false} UnderIsLater(books: seq<Account>, i: nat, root: nat)
    requires FundersFirst(books) && i < |books| && Under(books, i, root)
    ensures root <= i
    decreases i
  {
    if i != root {
      UnderIsLater(books, books[i].funder.index, root);
    }
  }

  lemma {:induction false} NothingCarvedYet(books: seq<Account>, root: nat, n: nat)
    requires FundersFirst(books) && n <= |books|
    ensures CarvedUnder(books, root, 0, n) == 0
  {
    if n > 0 {
      NothingCarvedYet(books, root, n - 1);
    }
  }

  /** One more grant counts once, for its funder, if that is under the root. */
  lemma {:induction false} OneMoreGrant(books: seq<Account>, root: nat, m: nat, n: nat)
    requires FundersFirst(books) && m < |books| && n <= |books|
    ensures var f := books[m].funder;
            var under := f.From? && f.index < n && Under(books, f.index, root);
            CarvedUnder(books, root, m + 1, n) == CarvedUnder(books, root, m, n) + if under then books[m].granted else 0
    decreases n
  {
    if n > 0 {
      OneMoreGrant(books, root, m, n - 1);
    }
  }

  /** Counted by giver or by receiver, it is the same money. */
  lemma {:induction false} GivenIsReceived(books: seq<Account>, root: nat, m: nat)
    requires FundersFirst(books) && m <= |books|
    ensures CarvedUnder(books, root, m, |books|) == FundedUnder(books, root, m)
  {
    if m == 0 {
      NothingCarvedYet(books, root, |books|);
    } else {
      GivenIsReceived(books, root, m - 1);
      OneMoreGrant(books, root, m - 1, |books|);
    }
  }

  lemma {:induction false} SpentWithinGrants(books: seq<Account>, root: nat, n: nat)
    requires Balanced(books) && root < |books| && n <= |books|
    ensures OwnUnder(books, root, n) + CarvedUnder(books, root, |books|, n)
         <= FundedUnder(books, root, n) + ChargedUnder(books, root, n) + if root < n then books[root].granted else 0
  {
    if n > 0 {
      var i := n - 1;
      SpentWithinGrants(books, root, i);
      assert books[i].own + Carved(books, i, |books|) <= books[i].granted + books[i].charged;
      if i == root && books[i].funder.From? && Under(books, books[i].funder.index, root) {
        UnderIsLater(books, books[i].funder.index, root);
      }
    }
  }

  /**
   * Conservation over trees: what a whole delegation subtree spent itself is at most the root's
   * grant plus what the kernel charged to members of that subtree after the fact.
   */
  lemma SubtreeWithinGrant(books: seq<Account>, root: nat)
    requires Balanced(books) && root < |books|
    ensures OwnUnder(books, root, |books|) <= books[root].granted + ChargedUnder(books, root, |books|)
  {
    SpentWithinGrants(books, root, |books|);
    GivenIsReceived(books, root, |books|);
  }

  // ----- the ways the books move -----

  /** By how much an outlay exceeds a grant. */
  function Excess(spent: nat, granted: nat): nat {
    if spent > granted then spent - granted else 0
  }

  /** A new account of the kernel's, of which something may be spent already. */
  function Opened(books: seq<Account>, granted: nat, spent: nat): seq<Account> {
    books + [Account(granted, spent, spent, Excess(spent, granted), Kernel)]
  }

  function Paid(books: seq<Account>, i: nat, amount: nat): seq<Account>
    requires i < |books|
  {
    books[i := books[i].(spent := books[i].spent + amount, own := books[i].own + amount)]
  }

  /** A charge is booked in full; what it adds to `spent` may saturate below it. */
  function Charged(books: seq<Account>, i: nat, booked: nat, amount: nat): seq<Account>
    requires i < |books|
  {
    var a := books[i];
    books[i := a.(spent := a.spent + booked, own := a.own + booked, charged := a.charged + amount)]
  }

  /** Work is booked when it is done; what it takes beyond the grant is an overrun. */
  function Worked(books: seq<Account>, i: nat, amount: nat): seq<Account>
    requires i < |books|
  {
    var a := books[i];
    books[i := a.(spent := a.spent + amount, own := a.own + amount, charged := Excess(a.spent + amount, a.granted))]
  }

  function Funded(books: seq<Account>, i: nat, amount: nat): seq<Account>
    requires i < |books|
  {
    books[i := books[i].(spent := books[i].spent + amount)] + [Account(amount, 0, 0, 0, From(i))]
  }

  lemma {:induction false} CarvedDependsOnGrants(books: seq<Account>, books': seq<Account>, i: nat, n: nat)
    requires n <= |books| && n <= |books'|
    requires forall c :: 0 <= c < n ==> books'[c].granted == books[c].granted && books'[c].funder == books[c].funder
    ensures Carved(books', i, n) == Carved(books, i, n)
  {
    if n > 0 {
      CarvedDependsOnGrants(books, books', i, n - 1);
    }
  }

  lemma {:induction false} NobodyCarvesFromLater(books: seq<Account>, i: nat, n: nat)
    requires FundersFirst(books) && n <= |books| && n <= i + 1
    ensures Carved(books, i, n) == 0
  {
    if n > 0 {
      NobodyCarvesFromLater(books, i, n - 1);
    }
  }

  lemma OpeningBalances(books: seq<Account>, granted: nat, spent: nat)
    requires Balanced(books)
    ensures Balanced(Opened(books, granted, spent))
  {
    var books' := Opened(books, granted, spent);
    forall i | 0 <= i < |books'| ensures books'[i].spent == books'[i].own + Carved(books', i, |books'|) {
      CarvedDependsOnGrants(books, books', i, |books|);
      if i == |books| {
        NobodyCarvesFromLater(books', i, |books'|);
      }
    }
  }

  lemma PayingBalances(books: seq<Account>, i: nat, amount: nat)
    requires Balanced(books) && i < |books|
    requires books[i].spent + amount <= books[i].granted + books[i].charged
    ensures Balanced(Paid(books, i, amount))
  {
    var books' := Paid(books, i, amount);
    forall k | 0 <= k < |books'| ensures Carved(books', k, |books'|) == Carved(books, k, |books|) {
      CarvedDependsOnGrants(books, books', k, |books|);
    }
  }

  lemma ChargingBalances(books: seq<Account>, i: nat, booked: nat, amount: nat)
    requires Balanced(books) && i < |books| && booked <= amount
    ensures Balanced(Charged(books, i, booked, amount))
  {
    var books' := Charged(books, i, booked, amount);
    forall k | 0 <= k < |books'| ensures Carved(books', k, |books'|) == Carved(books, k, |books|) {
      CarvedDependsOnGrants(books, books', k, |books|);
    }
  }

  lemma WorkingBalances(books: seq<Account>, i: nat, amount: nat)
    requires Balanced(books) && i < |books|
    ensures Balanced(Worked(books, i, amount))
  {
    var books' := Worked(books, i, amount);
    forall k | 0 <= k < |books'| ensures Carved(books', k, |books'|) == Carved(books, k, |books|) {
      CarvedDependsOnGrants(books, books', k, |books|);
    }
  }

  lemma FundingBalances(books: seq<Account>, i: nat, amount: nat)
    requires Balanced(books) && i < |books|
    requires books[i].spent + amount <= books[i].granted + books[i].charged
    ensures Balanced(Funded(books, i, amount))
  {
    var books' := Funded(books, i, amount);
    forall k | 0 <= k < |books'| ensures books'[k].spent == books'[k].own + Carved(books', k, |books'|) {
      CarvedDependsOnGrants(books, books', k, |books|);
      if k == |books| {
        NobodyCarvesFromLater(books', k, |books'|);
      }
    }
  }
}
