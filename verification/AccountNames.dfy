/** What the operations of the account database do to the accounts, and what every run of them keeps. */
module AccountNames {
  import opened Bytes
  import opened AccountRecords
  import opened AccountText
  import opened AccountRoundTrip
  import Json

  datatype ResolveResult = Resolved(name: string) | AccountNotFound | InvalidName | NameInUse

  /** The first account with a login, or the number of accounts. */
  function IndexOf(accounts: seq<Account>, login: string): (i: nat)
    ensures i <= |accounts| && (i < |accounts| ==> accounts[i].loginId == login)
    ensures forall j :: 0 <= j < i ==> accounts[j].loginId != login
  {
    if accounts == [] || accounts[0].loginId == login then 0 else 1 + IndexOf(accounts[1..], login)
  }

  /** units counts the UTF-16 code units of a name. */
  predicate ValidName(name: string, units: string -> nat) {
    name != "" && units(name) <= 12 && '\r' !in name && '\n' !in name && '\t' !in name
  }

  /** Some account of another login has this name. */
  predicate InUse(accounts: seq<Account>, login: string, name: string) {
    exists i :: 0 <= i < |accounts| && accounts[i].loginId != login && accounts[i].nickname == Some(name)
  }

  predicate Named(a: Account) { a.nickname.Some? && a.nickname.value != "" }

  function Resolve(accounts: seq<Account>, login: string, requested: string, units: string -> nat): ResolveResult {
    var i, name := IndexOf(accounts, login), Trim(requested);
    if i == |accounts| then AccountNotFound
    else if Named(accounts[i]) then Resolved(accounts[i].nickname.value)
    else if !ValidName(name, units) then InvalidName
    else if InUse(accounts, login, name) then NameInUse
    else Resolved(name)
  }

  datatype Operation = ResolveName(login: string, requested: string) | SetProfile(login: string, profile: Profile)

  function Apply(accounts: seq<Account>, op: Operation, units: string -> nat): (r: seq<Account>)
    ensures |r| == |accounts|
  {
    var i := IndexOf(accounts, op.login);
    if i == |accounts| then accounts
    else
      match op
      case SetProfile(_, profile) => accounts[i := accounts[i].(profile := profile)]
      case ResolveName(login, requested) =>
        var result := Resolve(accounts, login, requested, units);
        if !Named(accounts[i]) && result.Resolved? then accounts[i := accounts[i].(nickname := Some(result.name))]
        else accounts
  }

  function ApplyAll(accounts: seq<Account>, ops: seq<Operation>, units: string -> nat): (r: seq<Account>)
    ensures |r| == |accounts|
    decreases ops
  {
    if ops == [] then accounts else ApplyAll(Apply(accounts, ops[0], units), ops[1..], units)
  }

  // ---------------------------------------------------------------- trimming

  lemma {:induction false} TrimFrontTrims(s: string)
    ensures var t := TrimFront(s); t != "" ==> !Json.IsSpace(t[0])
  {
    if s != "" && Json.IsSpace(s[0]) { TrimFrontTrims(s[1..]); }
  }

  lemma {:induction false} TrimBackTrims(s: string)
    ensures var t := TrimBack(s);
            (t != "" ==> !Json.IsSpace(t[|t| - 1]) && t[0] == s[0])
  {
    if s != "" && Json.IsSpace(s[|s| - 1]) { TrimBackTrims(s[..|s| - 1]); }
  }

  ghost predicate AllSpace(s: string) { forall c <- s :: Json.IsSpace(c) }

  lemma {:induction false} TrimFrontIs(s: string) returns (front: string)
    ensures s == front + TrimFront(s) && AllSpace(front)
  {
    front := "";
    if s != "" && Json.IsSpace(s[0]) {
      front := TrimFrontIs(s[1..]);
      front := [s[0]] + front;
    }
  }

  lemma {:induction false} TrimBackIs(s: string) returns (back: string)
    ensures s == TrimBack(s) + back && AllSpace(back)
  {
    back := "";
    if s != "" && Json.IsSpace(s[|s| - 1]) {
      back := TrimBackIs(s[..|s| - 1]);
      back := back + [s[|s| - 1]];
    }
  }

  /** Trimming takes away white space at both ends, all there is, and nothing else. */
  lemma TrimIs(s: string) returns (front: string, back: string)
    ensures s == front + Trim(s) + back && AllSpace(front) && AllSpace(back)
    ensures var t := Trim(s); t != "" ==> !Json.IsSpace(t[0]) && !Json.IsSpace(t[|t| - 1])
  {
    front := TrimFrontIs(s);
    back := TrimBackIs(TrimFront(s));
    TrimFrontTrims(s);
    TrimBackTrims(TrimFront(s));
  }

  /** Trimming twice is trimming once. */
  lemma TrimTwice(s: string)
    ensures Trim(Trim(s)) == Trim(s)
  {
    TrimFrontTrims(s);
    TrimBackTrims(TrimFront(s));
  }

  // ---------------------------------------------------------------- invariants

  ghost predicate AllStorable(accounts: seq<Account>) { forall i :: 0 <= i < |accounts| ==> Storable(accounts[i]) }

  /** Accounts of different logins never share a nickname. */
  ghost predicate UniqueNames(accounts: seq<Account>) {
    forall i, j :: 0 <= i < |accounts| && 0 <= j < |accounts| && accounts[i].loginId != accounts[j].loginId ==>
      accounts[i].nickname == None || accounts[i].nickname != accounts[j].nickname
  }

  /** Same logins and passwords in the same places, and every nickname that was set is still there. */
  ghost predicate KeepsNames(before: seq<Account>, after: seq<Account>) {
    |before| == |after| &&
    forall i :: 0 <= i < |before| ==>
      before[i].loginId == after[i].loginId && before[i].password == after[i].password &&
      (Named(before[i]) ==> after[i].nickname == before[i].nickname)
  }

  lemma {:induction false} ReadAccountsAreStorable(items: seq<Json.Json>)
    requires ReadRecords(items, ReadAccount).Got?
    ensures AllStorable(ReadRecords(items, ReadAccount).value)
  {
    if items != [] {
      ReadAccountsAreStorable(items[..|items| - 1]);
      var o := items[|items| - 1].fields;
      if "nickname" in o && o["nickname"].Str? { TrimTwice(o["nickname"].s); }
      assert Storable(ReadAccount(o).value);
    }
  }

  /** What a file loads as can be stored again without loss. */
  lemma LoadedAreStorable(text: string)
    requires Loaded(text).Got?
    ensures AllStorable(Loaded(text).value)
  {
    var o := Json.Parse(text).value.fields;
    if "accounts" in o { ReadAccountsAreStorable(o["accounts"].items); }
  }

  lemma ApplyKeepsInvariants(accounts: seq<Account>, op: Operation, units: string -> nat)
    requires AllStorable(accounts)
    ensures var after := Apply(accounts, op, units);
            AllStorable(after) && KeepsNames(accounts, after) && (UniqueNames(accounts) ==> UniqueNames(after))
  {
    if op.ResolveName? { TrimTwice(op.requested); }
  }

  /** Whatever is done to a loaded database, saving it loses nothing, no two logins share a nickname if none
      did before, and nicknames, logins and passwords stay. */
  lemma {:induction false} RunsKeepAccountsStorable(accounts: seq<Account>, ops: seq<Operation>, units: string -> nat)
    requires AllStorable(accounts)
    ensures var after := ApplyAll(accounts, ops, units);
            && Loaded(Stored(after)) == Got(after)
            && AllStorable(after) && KeepsNames(accounts, after) && (UniqueNames(accounts) ==> UniqueNames(after))
    decreases ops
  {
    if ops == [] {
      RoundTripExactlyWhen(accounts);
    } else {
      var next := Apply(accounts, ops[0], units);
      ApplyKeepsInvariants(accounts, ops[0], units);
      RunsKeepAccountsStorable(next, ops[1..], units);
    }
  }

  lemma {:induction false} SameLoginsSameIndex(a: seq<Account>, b: seq<Account>, login: string)
    requires |a| == |b| && forall i :: 0 <= i < |a| ==> a[i].loginId == b[i].loginId
    ensures IndexOf(a, login) == IndexOf(b, login)
  {
    if a != [] { SameLoginsSameIndex(a[1..], b[1..], login); }
  }

  /** A name once resolved is the answer to every later request of that login, whatever happens in between. */
  lemma ResolvedNameIsFinal(accounts: seq<Account>, login: string, requested: string, ops: seq<Operation>,
                            later: string, units: string -> nat)
    requires AllStorable(accounts) && Resolve(accounts, login, requested, units).Resolved?
    ensures var after := ApplyAll(Apply(accounts, ResolveName(login, requested), units), ops, units);
            Resolve(after, login, later, units) == Resolve(accounts, login, requested, units)
  {
    var named := Apply(accounts, ResolveName(login, requested), units);
    var after, i := ApplyAll(named, ops, units), IndexOf(accounts, login);
    ApplyKeepsInvariants(accounts, ResolveName(login, requested), units);
    RunsKeepAccountsStorable(named, ops, units);
    SameLoginsSameIndex(accounts, after, login);
    assert Named(named[i]) && Resolve(accounts, login, requested, units) == Resolved(named[i].nickname.value);
  }

  // ---------------------------------------------------------------- what an operation changes

  /** The account an operation means: the first one with the login. */
  ghost predicate IsAccountOf(accounts: seq<Account>, i: nat, login: string) {
    i < |accounts| && accounts[i].loginId == login && forall j :: 0 <= j < i ==> accounts[j].loginId != login
  }

  /** Nothing but one account has changed. */
  ghost predicate OnlyAccount(before: seq<Account>, after: seq<Account>, i: nat, account: Account)
    requires i < |before|
  {
    |after| == |before| && after[i] == account && forall j :: 0 <= j < |before| && j != i ==> after[j] == before[j]
  }

  /** Setting a profile sets it for the account of the login, and changes nothing else, of this account or of another;
      without such an account nothing changes. */
  lemma ProfileIsSet(accounts: seq<Account>, login: string, profile: Profile, i: nat, units: string -> nat)
    ensures var after := Apply(accounts, SetProfile(login, profile), units);
            && (IsAccountOf(accounts, i, login) ==> OnlyAccount(accounts, after, i, accounts[i].(profile := profile)))
            && ((forall a <- accounts :: a.loginId != login) ==> after == accounts)
  {
  }

  /** A name is unfit if it is empty once trimmed, longer than twelve code units or has a line end or tab in it. */
  predicate IsUnfit(name: string, units: string -> nat) {
    name == "" || units(name) > 12 || exists c <- name :: c == '\r' || c == '\n' || c == '\t'
  }

  /** A request answers with the name the account has. One without a name gets the trimmed name unless it is unfit or an
      account of another login has it, and nothing else changes. */
  lemma NameIsGiven(accounts: seq<Account>, login: string, requested: string, i: nat, units: string -> nat)
    requires IsAccountOf(accounts, i, login)
    ensures var result, after := Resolve(accounts, login, requested, units),
                                 Apply(accounts, ResolveName(login, requested), units);
            var was, name := accounts[i].nickname, Trim(requested);
            if was.Some? && was.value != "" then result == Resolved(was.value) && after == accounts
            else if IsUnfit(name, units) then result == InvalidName && after == accounts
            else if exists a <- accounts :: a.loginId != login && a.nickname == Some(name) then
              result == NameInUse && after == accounts
            else result == Resolved(name) && OnlyAccount(accounts, after, i, accounts[i].(nickname := Some(name)))
  {
    var name := Trim(requested);
    if InUse(accounts, login, name) {
      var k :| 0 <= k < |accounts| && accounts[k].loginId != login && accounts[k].nickname == Some(name);
      assert accounts[k] in accounts;
    }
  }

  lemma NobodyIsNamed(accounts: seq<Account>, login: string, requested: string, units: string -> nat)
    requires forall a <- accounts :: a.loginId != login
    ensures Resolve(accounts, login, requested, units) == AccountNotFound
    ensures Apply(accounts, ResolveName(login, requested), units) == accounts
  {
  }

  // ---------------------------------------------------------------- what a run leaves

  /** The last profile a list of operations sets for a login. */
  function LastProfile(ops: seq<Operation>, login: string): Option<Profile> {
    if ops == [] then None
    else
      var op := ops[|ops| - 1];
      if op.SetProfile? && op.login == login then Some(op.profile) else LastProfile(ops[..|ops| - 1], login)
  }

  lemma {:induction false} ApplyLast(accounts: seq<Account>, ops: seq<Operation>, units: string -> nat)
    requires ops != []
    ensures var n := |ops| - 1;
            ApplyAll(accounts, ops, units) == Apply(ApplyAll(accounts, ops[..n], units), ops[n], units)
    decreases ops
  {
    var n := |ops| - 1;
    if n == 0 {
      assert ops[1..] == [];
    } else {
      assert ops[1..][..n - 1] == ops[..n][1..];
      ApplyLast(Apply(accounts, ops[0], units), ops[1..], units);
    }
  }

  /** After any operations every account has the profile set last for its login, if it is the first one with this login
      and one was set, and otherwise the one it had. */
  lemma {:induction false} LastProfileCounts(accounts: seq<Account>, ops: seq<Operation>, i: nat, units: string -> nat)
    requires i < |accounts|
    ensures var was, now := accounts[i], ApplyAll(accounts, ops, units)[i];
            && now.loginId == was.loginId
            && now.profile == if IsAccountOf(accounts, i, was.loginId) && LastProfile(ops, was.loginId).Some?
                              then LastProfile(ops, was.loginId).value else was.profile
    ensures forall j :: 0 <= j < |accounts| ==> ApplyAll(accounts, ops, units)[j].loginId == accounts[j].loginId
    decreases |ops|
  {
    if ops != [] {
      var n := |ops| - 1;
      LastProfileCounts(accounts, ops[..n], i, units);
      ApplyLast(accounts, ops, units);
      SameLoginsSameIndex(accounts, ApplyAll(accounts, ops[..n], units), ops[n].login);
    }
  }

  predicate AsksFor(op: Operation, login: string, nickname: Option<string>) {
    op.ResolveName? && op.login == login && nickname == Some(Trim(op.requested))
  }

  lemma NewNameWasRequested(accounts: seq<Account>, op: Operation, i: nat, units: string -> nat)
    requires i < |accounts|
    ensures var was, now := accounts[i], Apply(accounts, op, units)[i];
            now.nickname == was.nickname ||
            (IsAccountOf(accounts, i, was.loginId) && !Named(was) && AsksFor(op, was.loginId, now.nickname))
  {
  }

  /** A nickname that was not there before was asked for by one of the operations, for this login. */
  lemma {:induction false} NewNamesWereRequested(accounts: seq<Account>, ops: seq<Operation>, i: nat,
                                                 units: string -> nat)
    requires i < |accounts|
    ensures var was, now := accounts[i], ApplyAll(accounts, ops, units)[i];
            now.nickname == was.nickname ||
            (IsAccountOf(accounts, i, was.loginId) && !Named(was) &&
             exists op <- ops :: AsksFor(op, was.loginId, now.nickname))
    decreases |ops|
  {
    if ops != [] {
      var n := |ops| - 1;
      var before := ApplyAll(accounts, ops[..n], units);
      NewNamesWereRequested(accounts, ops[..n], i, units);
      ApplyLast(accounts, ops, units);
      LastProfileCounts(accounts, ops[..n], i, units);
      NewNameWasRequested(before, ops[n], i, units);
      StillAsked(ops, accounts[i].loginId, before[i].nickname);
      assert ops[n] in ops;
      assert IsAccountOf(before, i, accounts[i].loginId) <==> IsAccountOf(accounts, i, accounts[i].loginId);
    }
  }

  lemma StillAsked(ops: seq<Operation>, login: string, nickname: Option<string>)
    requires ops != []
    ensures (exists op <- ops[..|ops| - 1] :: AsksFor(op, login, nickname)) ==>
              exists op <- ops :: AsksFor(op, login, nickname)
  {
    if op :| op in ops[..|ops| - 1] && AsksFor(op, login, nickname) { assert op in ops; }
  }
}
