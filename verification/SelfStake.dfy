/** The self stake of every vote account: stake accounts are fetched in 256 pages, keyed
    by the first byte of the withdraw authority, and the funded bonds are added. */
module SelfStake {
  import opened Sequences
  import opened Wrappers

  const PAGES: nat := 256

  const U64_MAX: int := 0xFFFF_FFFF_FFFF_FFFF

  const ACCOUNT_SIZE: nat := 200

  /** The parts of a decoded stake account that matter: the withdrawer, the validator it
      is delegated to if any, and the effective stake at the epoch. */
  datatype StakeState = StakeState(withdrawer: Option<string>, voter: Option<string>, effective: nat)

  /** An account on the chain; its data may not decode. */
  datatype Account = Account(size: nat, withdrawByte: nat, state: Option<StakeState>)

  datatype Bond = Bond(voteAccount: string, fundedAmount: int)

  datatype Error = NoSelfStake | NoBonds | ZeroBonds | BadAmount

  type Stakes = map<string, nat>

  type Authorities = set<(string, string)>

  function Of(stakes: Stakes, v: string): nat { if v in stakes then stakes[v] else 0 }

  /** The filter of one page request. */
  function OnPage(page: nat): Account -> bool {
    (a: Account) => a.size == ACCOUNT_SIZE && a.withdrawByte == page
  }

  function WithdrawerAndVote(s: StakeState): Option<(string, string)> {
    if s.voter.Some? && s.withdrawer.Some? then Some((s.withdrawer.value, s.voter.value)) else None
  }

  /** What an account adds, and to whom; nothing unless its withdrawer is the withdraw
      authority of its validator. */
  function Contribution(a: Account, authorities: Authorities): Option<(string, nat)> {
    if a.state.None? then None
    else
      var keys := WithdrawerAndVote(a.state.value);
      if keys.None? || keys.value !in authorities || a.state.value.effective == 0 then None
      else Some((keys.value.1, a.state.value.effective))
  }

  function Share(authorities: Authorities, v: string): Account -> int {
    (a: Account) =>
      var c := Contribution(a, authorities);
      if c.Some? && c.value.0 == v then c.value.1 else 0
  }

  /** The stake of all given accounts that counts for a validator. */
  function Total(accounts: seq<Account>, authorities: Authorities, v: string): int {
    SumInt(Map(Share(authorities, v), accounts))
  }

  /** A table that holds exactly the validators with stake. */
  ghost predicate Holds(stakes: Stakes, accounts: seq<Account>, authorities: Authorities) {
    forall v :: Of(stakes, v) == Total(accounts, authorities, v) && (v in stakes <==> Of(stakes, v) > 0)
  }

  function UpdateSelfStake(stakes: Stakes, voteKey: string, lamports: nat): Stakes {
    stakes[voteKey := Of(stakes, voteKey) + lamports]
  }

  lemma {:induction false} TotalSnoc(accounts: seq<Account>, a: Account, authorities: Authorities, v: string)
    ensures Total(accounts + [a], authorities, v) == Total(accounts, authorities, v) + Share(authorities, v)(a)
  {
    MapConcat(Share(authorities, v), accounts, [a]);
    SumIntConcat(Map(Share(authorities, v), accounts), Map(Share(authorities, v), [a]));
    assert Map(Share(authorities, v), [a]) == [Share(authorities, v)(a)];
    assert SumInt([Share(authorities, v)(a)]) == Share(authorities, v)(a);
  }

  method ProcessAccounts(accounts: seq<Account>, stakes: Stakes, authorities: Authorities, ghost before: seq<Account>)
    returns (after: Stakes, counted: nat)
    requires Holds(stakes, before, authorities)
    ensures Holds(after, before + accounts, authorities)
    ensures counted <= |accounts|
  {
    after, counted := stakes, 0;
    assert before + accounts[..0] == before;
    for i := 0 to |accounts|
      invariant Holds(after, before + accounts[..i], authorities)
      invariant counted <= i
    {
      var a := accounts[i];
      ghost var seen := before + accounts[..i];
      assert before + accounts[..i + 1] == seen + [a];
      forall v ensures Total(seen + [a], authorities, v) == Total(seen, authorities, v) + Share(authorities, v)(a) {
        TotalSnoc(seen, a, authorities, v);
      }
      if a.state.Some? {
        var keys := WithdrawerAndVote(a.state.value);
        if keys.Some? {
          var effective := a.state.value.effective;
          if keys.value in authorities && effective != 0 {
            counted := counted + 1;
            after := UpdateSelfStake(after, keys.value.1, effective);
          }
        }
      }
    }
    assert accounts[..|accounts|] == accounts;
  }

  /** The accounts of the first pages, page after page. */
  function Paged(chain: seq<Account>, pages: nat): seq<Account> {
    if pages == 0 then [] else Paged(chain, pages - 1) + Filter(chain, OnPage(pages - 1))
  }

  method FetchSelfStake(chain: seq<Account>, authorities: Authorities) returns (stakes: Stakes)
    ensures Holds(stakes, Paged(chain, PAGES), authorities)
  {
    stakes := map[];
    for page := 0 to PAGES
      invariant Holds(stakes, Paged(chain, page), authorities)
    {
      var accounts := Filter(chain, OnPage(page));
      var counted;
      stakes, counted := ProcessAccounts(accounts, stakes, authorities, Paged(chain, page));
    }
  }

  predicate Fetched(a: Account) { a.size == ACCOUNT_SIZE }

  function Below(pages: nat): Account -> bool {
    (a: Account) => a.size == ACCOUNT_SIZE && a.withdrawByte < pages
  }

  lemma {:induction false} TotalConcat(a: seq<Account>, b: seq<Account>, authorities: Authorities, v: string)
    ensures Total(a + b, authorities, v) == Total(a, authorities, v) + Total(b, authorities, v)
  {
    MapConcat(Share(authorities, v), a, b);
    SumIntConcat(Map(Share(authorities, v), a), Map(Share(authorities, v), b));
  }

  /** The accounts of one more page are those of the pages before and those on it. */
  lemma {:induction false} OnePageMore(chain: seq<Account>, page: nat, authorities: Authorities, v: string)
    ensures Total(Filter(chain, Below(page + 1)), authorities, v)
      == Total(Filter(chain, Below(page)), authorities, v) + Total(Filter(chain, OnPage(page)), authorities, v)
  {
    if chain != [] {
      OnePageMore(chain[1..], page, authorities, v);
    }
  }

  lemma {:induction false} PagedTotal(chain: seq<Account>, pages: nat, authorities: Authorities, v: string)
    ensures Total(Paged(chain, pages), authorities, v) == Total(Filter(chain, Below(pages)), authorities, v)
  {
    if pages == 0 {
      NoneBelow(chain);
    } else {
      var page := pages - 1;
      PagedTotal(chain, page, authorities, v);
      TotalConcat(Paged(chain, page), Filter(chain, OnPage(page)), authorities, v);
      OnePageMore(chain, page, authorities, v);
      assert pages == page + 1;
    }
  }

  lemma {:induction false} NoneBelow(chain: seq<Account>)
    ensures Filter(chain, Below(0)) == []
  {
    if chain != [] {
      NoneBelow(chain[1..]);
    }
  }

  /** Withdraw authorities start with a byte. */
  ghost predicate Bytes(chain: seq<Account>) {
    forall a :: a in chain ==> a.withdrawByte < 256
  }

  /** The stake that counts for a validator on the whole chain. */
  function OnChain(chain: seq<Account>, authorities: Authorities, v: string): int {
    Total(Filter(chain, Fetched), authorities, v)
  }

  ghost predicate NoneOnChain(chain: seq<Account>, authorities: Authorities) {
    forall v :: OnChain(chain, authorities, v) == 0
  }

  /** Fetching page by page counts every stake account once: the result is the sum over
      the whole chain. */
  lemma {:induction false} PagesCountOnce(chain: seq<Account>, authorities: Authorities, v: string)
    requires Bytes(chain)
    ensures Total(Paged(chain, PAGES), authorities, v) == OnChain(chain, authorities, v)
  {
    PagedTotal(chain, PAGES, authorities, v);
    FilterAgree(chain, Below(PAGES), Fetched);
  }

  lemma {:induction false} NoneHeld(stakes: Stakes)
    requires forall v :: v in stakes ==> Of(stakes, v) > 0
    ensures stakes == map[] <==> forall v :: Of(stakes, v) == 0
  {
    if stakes != map[] {
      var v :| v in stakes;
      assert Of(stakes, v) != 0;
    }
  }

  /* Bonds. */

  function BondShare(v: string): Bond -> int {
    (b: Bond) => if b.voteAccount == v then b.fundedAmount else 0
  }

  function BondTotal(bonds: seq<Bond>, v: string): int {
    SumInt(Map(BondShare(v), bonds))
  }

  predicate BadBond(b: Bond) { b.fundedAmount < 0 || b.fundedAmount > U64_MAX }

  /** Why the bonds cannot be added, if they cannot. */
  ghost function BondError(noStake: bool, bonds: seq<Bond>, allowZero: bool): Option<Error> {
    if noStake then Some(NoSelfStake)
    else if bonds == [] then Some(NoBonds)
    else if (forall b :: b in bonds ==> b.fundedAmount == 0) && !allowZero then Some(ZeroBonds)
    else if exists b :: b in bonds && !(0 <= b.fundedAmount <= 18446744073709551615) then Some(BadAmount)
    else None
  }

  lemma {:induction false} BondTotalSnoc(bonds: seq<Bond>, b: Bond, v: string)
    ensures BondTotal(bonds + [b], v) == BondTotal(bonds, v) + BondShare(v)(b)
  {
    MapConcat(BondShare(v), bonds, [b]);
    SumIntConcat(Map(BondShare(v), bonds), Map(BondShare(v), [b]));
    assert Map(BondShare(v), [b]) == [BondShare(v)(b)];
    assert SumInt([BondShare(v)(b)]) == BondShare(v)(b);
  }

  /** The stake of a validator is what was fetched plus its bonds. */
  ghost predicate Added(after: Stakes, stakes: Stakes, bonds: seq<Bond>) {
    && (forall v :: Of(after, v) == Of(stakes, v) + BondTotal(bonds, v))
    && (forall v :: v in after <==> v in stakes || exists b :: b in bonds && b.voteAccount == v)
  }

  lemma {:induction false} AddedMore(after: Stakes, stakes: Stakes, bonds: seq<Bond>, b: Bond)
    requires Added(after, stakes, bonds) && !BadBond(b)
    ensures Added(UpdateSelfStake(after, b.voteAccount, b.fundedAmount), stakes, bonds + [b])
  {
    forall v ensures BondTotal(bonds + [b], v) == BondTotal(bonds, v) + BondShare(v)(b) {
      BondTotalSnoc(bonds, b, v);
    }
  }

  method AddBonds(stakes: Stakes, bonds: seq<Bond>, allowZero: bool) returns (r: Result<Stakes, Error>)
    ensures var error := BondError(stakes == map[], bonds, allowZero);
      if error.Some? then r == Failure(error.value) else r.Success? && Added(r.value, stakes, bonds)
  {
    if stakes == map[] {
      return Failure(NoSelfStake);
    }
    if bonds == [] {
      return Failure(NoBonds);
    }
    if (forall b :: b in bonds ==> b.fundedAmount == 0) && !allowZero {
      return Failure(ZeroBonds);
    }
    var selfStake: Stakes := stakes;
    for i := 0 to |bonds|
      invariant forall b :: b in bonds[..i] ==> !BadBond(b)
      invariant Added(selfStake, stakes, bonds[..i])
    {
      var b := bonds[i];
      assert bonds[..i + 1] == bonds[..i] + [b];
      if BadBond(b) {
        return Failure(BadAmount);
      }
      AddedMore(selfStake, stakes, bonds[..i], b);
      selfStake := UpdateSelfStake(selfStake, b.voteAccount, b.fundedAmount);
    }
    assert bonds[..|bonds|] == bonds;
    r := Success(selfStake);
  }

  /** The whole computation: on success every vote account gets the effective stake of
      all matching accounts of the chain, each counted once, plus its bonds; it fails exactly
      when nothing on the chain counts or the bonds cannot be added. */
  method GetSelfStake(chain: seq<Account>, authorities: Authorities, bonds: seq<Bond>, allowZero: bool)
    returns (r: Result<Stakes, Error>)
    requires Bytes(chain)
    ensures var error := BondError(NoneOnChain(chain, authorities), bonds, allowZero);
      if error.Some? then r == Failure(error.value)
      else r.Success? && forall v :: Of(r.value, v) == OnChain(chain, authorities, v) + BondTotal(bonds, v)
  {
    var stakes := FetchSelfStake(chain, authorities);
    forall v ensures Of(stakes, v) == OnChain(chain, authorities, v) {
      PagesCountOnce(chain, authorities, v);
    }
    NoneHeld(stakes);
    r := AddBonds(stakes, bonds, allowZero);
  }

  /* The stake of the chain and the bonds, account by account. */

  /** What an account counts for a validator: its effective stake if it is a stake account
      that is delegated to it by a withdrawer that is its withdraw authority. */
  function Counts(a: Account, authorities: Authorities, v: string): nat {
    if a.size == 200 && a.state.Some? && a.state.value.voter == Some(v) && a.state.value.withdrawer.Some?
      && (a.state.value.withdrawer.value, v) in authorities
    then a.state.value.effective else 0
  }

  lemma {:induction false} OnChainCounts(chain: seq<Account>, authorities: Authorities, v: string)
    ensures OnChain(chain, authorities, v) ==
      if chain == [] then 0 else Counts(chain[0], authorities, v) + OnChain(chain[1..], authorities, v)
  {
  }

  lemma {:induction false} BondsCount(bonds: seq<Bond>, v: string)
    ensures BondTotal(bonds, v) ==
      if bonds == [] then 0
      else (if bonds[0].voteAccount == v then bonds[0].fundedAmount else 0) + BondTotal(bonds[1..], v)
  {
  }
}
