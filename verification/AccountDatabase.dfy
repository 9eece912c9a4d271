/** The account database object: accounts held in memory and the file they are saved in. */
module AccountStore {
  import opened Bytes
  import opened Json
  import opened JsonText
  import opened JsonParsing
  import opened AccountRecords
  import opened AccountText
  import opened AccountRoundTrip
  import opened AccountNames

  // ---------------------------------------------------------------- printing

  /** The output stream of the printers. */
  class TextStream {
    var text: string

    constructor ()
      ensures text == ""
    {
      text := "";
    }

    method Put(s: string)
      modifies this
      ensures text == old(text) + s
    {
      text := text + s;
    }

    method WriteIndent(indent: nat)
      modifies this
      ensures text == old(text) + Spaces(indent)
    {
      for i := 0 to indent
        invariant text == old(text) + Spaces(i)
      {
        assert Spaces(i + 1) == Spaces(i) + " ";
        Put(" ");
      }
    }

    method EscapeJson(s: string)
      modifies this
      ensures text == old(text) + Escaped(s)
    {
      for i := 0 to |s|
        invariant text + Escaped(s[i..]) == old(text) + Escaped(s)
      {
        assert s[i..][1..] == s[i + 1..];
        Regroup(text, EscapedChar(s[i]), Escaped(s[i + 1..]));
        Put(EscapedChar(s[i]));
      }
    }

    method PutString(s: string)
      modifies this
      ensures text == old(text) + Quoted(s)
    {
      Put("\"");
      EscapeJson(s);
      Put("\"");
    }

    method Append(doc: Doc, indent: nat)
      modifies this
      ensures text == old(text) + Printed(doc, indent)
      decreases doc, 1
    {
      match doc {
        case NullDoc => Put("null");
        case Number(n) => Put(Decimal(n));
        case Text(s) => PutString(s);
        case List(items) => AppendArray(items, indent);
        case Record(members) => AppendObject(members, indent);
      }
    }

    method AppendArray(items: seq<Doc>, indent: nat)
      modifies this
      ensures text == old(text) + Printed(List(items), indent)
      decreases items, 2
    {
      ghost var before := text;
      Put("[");
      if items != [] {
        Put("\n");
      }
      AppendItems(items, indent + 2);
      WriteIndent(indent);
      Put("]");
      ListWritten(before, items, indent);
    }

    method AppendItems(items: seq<Doc>, indent: nat)
      modifies this
      ensures text == old(text) + PrintedItems(items, indent)
      decreases items, 1
    {
      for index := 0 to |items|
        invariant text + PrintedItems(items[index..], indent) == old(text) + PrintedItems(items, indent)
      {
        ghost var before, later := text, items[index..];
        assert later[0] == items[index] && later[1..] == items[index + 1..];
        WriteIndent(indent);
        Append(items[index], indent);
        PutSeparator(index + 1 == |items|);
        ItemWritten(before, later, indent);
      }
    }

    method PutSeparator(last: bool)
      modifies this
      ensures text == old(text) + Separator(last)
    {
      if !last {
        Put(",");
      }
      Put("\n");
    }

    method AppendObject(members: seq<Member>, indent: nat)
      modifies this
      ensures text == old(text) + Printed(Record(members), indent)
      decreases members, 2
    {
      if members == [] {
        Put("{}");
        return;
      }
      ghost var before := text;
      Put("{\n");
      AppendMembers(members, indent + 2);
      WriteIndent(indent);
      Put("}");
      RecordWritten(before, members, indent);
    }

    method AppendMembers(members: seq<Member>, indent: nat)
      modifies this
      ensures text == old(text) + PrintedMembers(members, indent)
      decreases members, 1
    {
      for index := 0 to |members|
        invariant text + PrintedMembers(members[index..], indent) == old(text) + PrintedMembers(members, indent)
      {
        ghost var before, later := text, members[index..];
        assert later[0] == members[index] && later[1..] == members[index + 1..];
        AppendMember(members[index], indent);
        PutSeparator(index + 1 == |members|);
        MemberWritten(before, later, indent);
      }
    }

    method AppendMember(m: Member, indent: nat)
      modifies this
      ensures text == old(text) + Spaces(indent) + KeyText(m.key) + Printed(m.doc, indent)
      decreases m, 2
    {
      PutKey(m.key, indent);
      Append(m.doc, indent);
    }

    // -------------------------------------------------------------- profiles, accounts and the whole file

    /** Writes the parts that have a value; a comma follows every part but the last of those counted first. */
    method AppendEntries(entries: seq<Entry>, indent: nat)
      modifies this
      ensures text == old(text) + Printed(Record(Present(entries)), indent)
    {
      ghost var before, members := text, Present(entries);
      var fieldCount := CountFields(entries);
      if fieldCount == 0 {
        Put("{}");
        return;
      }
      Put("{\n");
      EmitEntries(entries, fieldCount, indent + 2);
      WriteIndent(indent);
      Put("}");
      RecordWritten(before, members, indent);
    }

    method EmitEntries(entries: seq<Entry>, fieldCount: nat, indent: nat)
      requires fieldCount == |Present(entries)|
      modifies this
      ensures text == old(text) + PrintedMembers(Present(entries), indent)
    {
      var emitted := 0;
      assert entries[0..] == entries;
      for i := 0 to |entries|
        invariant emitted + |Present(entries[i..])| == fieldCount
        invariant text + PrintedMembers(Present(entries[i..]), indent) ==
                  old(text) + PrintedMembers(Present(entries), indent)
      {
        PresentFrom(entries, i);
        if entries[i].doc.Some? {
          emitted := emitted + 1;
          EmitPart(entries[i], Present(entries[i + 1..]), emitted == fieldCount, indent);
        }
      }
    }

    method EmitPart(e: Entry, ghost later: seq<Member>, last: bool, indent: nat)
      requires e.doc.Some? && last == (later == [])
      modifies this
      ensures text + PrintedMembers(later, indent) ==
              old(text) + PrintedMembers([Member(e.key, e.doc.value)] + later, indent)
    {
      ghost var before, m := text, Member(e.key, e.doc.value);
      assert ([m] + later)[1..] == later;
      AppendMember(Member(e.key, e.doc.value), indent);
      PutSeparator(last);
      MemberWritten(before, [m] + later, indent);
    }

    method AppendAccountArray(accounts: seq<Account>)
      modifies this
      ensures text == old(text) + Printed(RecordsDoc(accounts, AccountMembers), 2)
    {
      ghost var before, docs := text, RecordsDoc(accounts, AccountMembers).items;
      Put("[");
      if accounts != [] {
        Put("\n");
      }
      AppendAccounts(accounts);
      WriteIndent(2);
      Put("]");
      ListWritten(before, docs, 2);
    }

    method AppendAccount(a: Account, last: bool)
      modifies this
      ensures text == old(text) + Spaces(4) + Printed(Record(AccountMembers(a)), 4) + Separator(last)
    {
      WriteIndent(4);
      AppendEntries(AccountEntries(a), 4);
      PutSeparator(last);
    }

    method AppendAccounts(accounts: seq<Account>)
      modifies this
      ensures text == old(text) + PrintedItems(RecordsDoc(accounts, AccountMembers).items, 4)
    {
      ghost var docs := RecordsDoc(accounts, AccountMembers).items;
      for index := 0 to |accounts|
        invariant text + PrintedItems(docs[index..], 4) == old(text) + PrintedItems(docs, 4)
      {
        ghost var before, later := text, docs[index..];
        assert later[0] == docs[index] && later[1..] == docs[index + 1..];
        AppendAccount(accounts[index], index + 1 == |accounts|);
        ItemWritten(before, later, 4);
      }
    }

    method AppendAccountsMember(accounts: seq<Account>)
      modifies this
      ensures text == old(text) + PrintedMembers(DatabaseDoc(accounts).members, 2)
    {
      ghost var before, members := text, DatabaseDoc(accounts).members;
      PutKey("accounts", 2);
      AppendAccountArray(accounts);
      PutSeparator(true);
      assert members[1..] == [];
      MemberWritten(before, members, 2);
    }

    method PutKey(key: string, indent: nat)
      modifies this
      ensures text == old(text) + Spaces(indent) + KeyText(key)
    {
      WriteIndent(indent);
      PutString(key);
      Put(": ");
    }

    method AppendDatabase(accounts: seq<Account>)
      modifies this
      ensures text == old(text) + Printed(DatabaseDoc(accounts), 0)
    {
      ghost var before, members := text, DatabaseDoc(accounts).members;
      Put("{\n");
      AppendAccountsMember(accounts);
      WriteIndent(0);
      Put("}");
      RecordWritten(before, members, 0);
    }

    method StoreText(accounts: seq<Account>)
      modifies this
      ensures text == old(text) + Stored(accounts)
    {
      ghost var before := text;
      AppendDatabase(accounts);
      Put("\n");
      Regroup(before, Printed(DatabaseDoc(accounts), 0), "\n");
    }
  }

  method CountFields(entries: seq<Entry>) returns (count: nat)
    ensures count == |Present(entries)|
  {
    count := 0;
    assert entries[0..] == entries;
    for i := 0 to |entries|
      invariant count + |Present(entries[i..])| == |Present(entries)|
    {
      PresentFrom(entries, i);
      if entries[i].doc.Some? {
        count := count + 1;
      }
    }
  }

  lemma PresentFrom(entries: seq<Entry>, i: nat)
    requires i < |entries|
    ensures entries[i].doc == None ==> Present(entries[i..]) == Present(entries[i + 1..])
    ensures entries[i].doc.Some? ==>
              Present(entries[i..]) == [Member(entries[i].key, entries[i].doc.value)] + Present(entries[i + 1..])
  {
    assert entries[i..][1..] == entries[i + 1..];
  }

  lemma ListWritten(before: string, items: seq<Doc>, indent: nat)
    ensures items != [] ==> before + "[" + "\n" + PrintedItems(items, indent + 2) + Spaces(indent) + "]" ==
                            before + Printed(List(items), indent)
    ensures items == [] ==> before + "[" + PrintedItems(items, indent + 2) + Spaces(indent) + "]" ==
                            before + Printed(List(items), indent)
  {
  }

  lemma ItemWritten(before: string, items: seq<Doc>, indent: nat)
    requires items != []
    ensures before + Spaces(indent) + Printed(items[0], indent) + Separator(|items| == 1) +
            PrintedItems(items[1..], indent) ==
            before + PrintedItems(items, indent)
  {
  }

  lemma RecordWritten(before: string, members: seq<Member>, indent: nat)
    requires members != []
    ensures before + "{\n" + PrintedMembers(members, indent + 2) + Spaces(indent) + "}" ==
            before + Printed(Record(members), indent)
  {
  }

  lemma MemberWritten(before: string, members: seq<Member>, indent: nat)
    requires members != []
    ensures before + Spaces(indent) + KeyText(members[0].key) + Printed(members[0].doc, indent) +
            Separator(|members| == 1) + PrintedMembers(members[1..], indent) ==
            before + PrintedMembers(members, indent)
  {
  }

  // ---------------------------------------------------------------- reading

  method ParseU32Array(items: seq<Json>) returns (r: Read<seq<u32>>)
    ensures r == ReadIds(items)
  {
    var values: seq<u32> := [];
    for i := 0 to |items|
      invariant ReadIds(items[..i]) == Got(values)
    {
      assert items[..i + 1][..i] == items[..i];
      if !items[i].Int? || !(0 <= items[i].n < 0x1_0000_0000) {
        ReadIdsRefused(items, i + 1);
        return Refused;
      }
      values := values + [items[i].n];
    }
    assert items[..|items|] == items;
    r := Got(values);
  }

  /** One bad entry refuses the whole list. */
  lemma {:induction false} ReadIdsRefused(items: seq<Json>, n: nat)
    requires n <= |items| && ReadIds(items[..n]).Refused?
    ensures ReadIds(items).Refused?
    decreases |items| - n
  {
    if n < |items| {
      assert items[..n + 1][..n] == items[..n];
      ReadIdsRefused(items, n + 1);
    } else {
      assert items[..n] == items;
    }
  }

  method ParseObjectArray<T>(items: seq<Json>, parser: JsonObject -> Read<T>) returns (r: Read<seq<T>>)
    ensures r == ReadRecords(items, parser)
  {
    var values: seq<T> := [];
    for i := 0 to |items|
      invariant ReadRecords(items[..i], parser) == Got(values)
    {
      assert items[..i + 1][..i] == items[..i];
      if !items[i].Obj? {
        ReadRecordsRefused(items, i + 1, parser);
        return Refused;
      }
      var x := parser(items[i].fields);
      if x.Refused? {
        ReadRecordsRefused(items, i + 1, parser);
        return Refused;
      }
      values := values + [x.value];
    }
    assert items[..|items|] == items;
    r := Got(values);
  }

  lemma {:induction false} ReadRecordsRefused<T>(items: seq<Json>, n: nat, read: JsonObject -> Read<T>)
    requires n <= |items| && ReadRecords(items[..n], read).Refused?
    ensures ReadRecords(items, read).Refused?
    decreases |items| - n
  {
    if n < |items| {
      assert items[..n + 1][..n] == items[..n];
      ReadRecordsRefused(items, n + 1, read);
    } else {
      assert items[..n] == items;
    }
  }

  // ---------------------------------------------------------------- the database

  /** units is the length of a name in UTF-16 code units, as the conversion outside the program reports it. */
  class AccountDatabase {
    const units: string -> nat
    var accounts: seq<Account>
    var file: Option<string>

    /** What is in memory is what the file holds, and nothing of it would be lost by saving it. */
    ghost predicate Valid()
      reads this
    {
      AllStorable(accounts) && (if file == None then accounts == [] else Loaded(file.value) == Got(accounts))
    }

    constructor (units: string -> nat, file: Option<string>)
      ensures this.units == units && this.file == file && accounts == []
    {
      this.units, this.file, this.accounts := units, file, [];
    }

    /** Reads the file; false stands for the exception of a malformed one. */
    method Load() returns (ok: bool)
      modifies this`accounts
      ensures ok <==> file == None || Loaded(file.value).Got?
      ensures ok ==> Valid()
    {
      accounts := [];
      if file == None {
        return true;
      }
      var root := ParseJson(file.value);
      if root == None || !root.value.Obj? {
        return false;
      }
      var fields := root.value.fields;
      if "accounts" !in fields {
        return true;
      }
      if !fields["accounts"].Arr? {
        return false;
      }
      var records := ParseObjectArray(fields["accounts"].items, ReadAccount);
      if records.Refused? {
        return false;
      }
      accounts := records.value;
      LoadedAreStorable(file.value);
      return true;
    }

    method Store()
      requires AllStorable(accounts)
      modifies this`file
      ensures file == Some(Stored(accounts)) && Valid()
    {
      var text := new TextStream();
      text.StoreText(accounts);
      RoundTripExactlyWhen(accounts);
      assert "" + Stored(accounts) == Stored(accounts);
      file := Some(text.text);
    }

    method FindIndex(login: string) returns (i: nat)
      ensures i == IndexOf(accounts, login)
    {
      i := 0;
      while i < |accounts| && accounts[i].loginId != login
        invariant i <= |accounts| && i + IndexOf(accounts[i..], login) == IndexOf(accounts, login)
      {
        assert accounts[i..][1..] == accounts[i + 1..];
        i := i + 1;
      }
    }

    method NameInUse(login: string, name: string) returns (used: bool)
      ensures used == InUse(accounts, login, name)
    {
      for i := 0 to |accounts|
        invariant forall j :: 0 <= j < i ==> !(accounts[j].loginId != login && accounts[j].nickname == Some(name))
      {
        if accounts[i].loginId != login && accounts[i].nickname == Some(name) {
          return true;
        }
      }
      return false;
    }

    /** Gives an account its name, once; the file follows. */
    method ResolveCharacterName(login: string, requested: string) returns (result: ResolveResult)
      requires Valid()
      modifies this`accounts, this`file
      ensures Valid()
      ensures result == Resolve(old(accounts), login, requested, units)
      ensures accounts == Apply(old(accounts), ResolveName(login, requested), units)
      ensures accounts == old(accounts) ==> file == old(file)
    {
      ApplyKeepsInvariants(accounts, ResolveName(login, requested), units);
      var i := FindIndex(login);
      if i == |accounts| {
        return AccountNotFound;
      }
      if Named(accounts[i]) {
        return Resolved(accounts[i].nickname.value);
      }
      var name := Trim(requested);
      if !ValidName(name, units) {
        return InvalidName;
      }
      var used := NameInUse(login, name);
      if used {
        return ResolveResult.NameInUse;
      }
      accounts := accounts[i := accounts[i].(nickname := Some(name))];
      Store();
      return Resolved(name);
    }

    method SetPacketProfile(login: string, profile: Profile) returns (found: bool)
      requires Valid()
      modifies this`accounts, this`file
      ensures Valid()
      ensures found <==> exists a <- old(accounts) :: a.loginId == login
      ensures accounts == Apply(old(accounts), SetProfile(login, profile), units)
      ensures !found ==> file == old(file)
    {
      ApplyKeepsInvariants(accounts, SetProfile(login, profile), units);
      var i := FindIndex(login);
      if i == |accounts| {
        return false;
      }
      assert accounts[i] in accounts;
      accounts := accounts[i := accounts[i].(profile := profile)];
      Store();
      return true;
    }
  }

  /** Performs any operations on a loaded database; whatever they are, loading its file again gives what is
      in memory, which is what the run of the operations computes. */
  method Perform(db: AccountDatabase, ops: seq<Operation>)
    requires db.Valid()
    modifies db
    ensures db.Valid() && db.accounts == ApplyAll(old(db.accounts), ops, db.units)
  {
    for i := 0 to |ops|
      invariant db.Valid()
      invariant ApplyAll(db.accounts, ops[i..], db.units) == ApplyAll(old(db.accounts), ops, db.units)
    {
      assert ops[i..][1..] == ops[i + 1..] && ops[i..][0] == ops[i];
      match ops[i] {
        case ResolveName(login, requested) =>
          var result := db.ResolveCharacterName(login, requested);
        case SetProfile(login, profile) =>
          var found := db.SetPacketProfile(login, profile);
      }
    }
  }
}
