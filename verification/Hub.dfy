/** The server's live connections, indexed by account and by device. */
module Hub {

  /** One connection; `serial` tells apart connections of the same device. */
  datatype Conn = Conn(serial: int, account: string, device: string)

  type Index = map<string, set<Conn>>

  function AccountOf(c: Conn): string {
    c.account
  }

  function DeviceOf(c: Conn): string {
    c.device
  }

  function Group(m: Index, key: string): set<Conn> {
    if key in m then m[key] else {}
  }

  /** m groups exactly the connections of `all` by a key each of them has, with no empty group. */
  ghost predicate Groups(m: Index, all: set<Conn>, keyOf: Conn -> string) {
    && (forall key, c :: c in Group(m, key) <==> c in all && keyOf(c) == key)
    && (forall key :: key in m ==> m[key] != {})
  }

  function Added(m: Index, key: string, c: Conn): Index {
    m[key := Group(m, key) + {c}]
  }

  function Removed(m: Index, key: string, c: Conn): Index {
    if key !in m then m
    else if m[key] - {c} == {} then m - {key}
    else m[key := m[key] - {c}]
  }

  /** Adding a connection, a second time too, keeps the index exact. */
  lemma AddingKeepsGroups(m: Index, all: set<Conn>, keyOf: Conn -> string, c: Conn)
    requires Groups(m, all, keyOf)
    ensures Groups(Added(m, keyOf(c), c), all + {c}, keyOf)
  {
    var m1 := Added(m, keyOf(c), c);
    forall key, d ensures d in Group(m1, key) <==> d in all + {c} && keyOf(d) == key {
      assert d in Group(m, key) <==> d in all && keyOf(d) == key;
    }
  }

  /** Removing a connection, one that is not there too, keeps the index exact. */
  lemma RemovingKeepsGroups(m: Index, all: set<Conn>, keyOf: Conn -> string, c: Conn)
    requires Groups(m, all, keyOf)
    ensures Groups(Removed(m, keyOf(c), c), all - {c}, keyOf)
  {
    var m1 := Removed(m, keyOf(c), c);
    forall key, d ensures d in Group(m1, key) <==> d in all - {c} && keyOf(d) == key {
      assert d in Group(m, key) <==> d in all && keyOf(d) == key;
      assert key == keyOf(c) ==> Group(m1, key) == Group(m, key) - {c};
    }
  }

  lemma GroupAt(m: Index, key: string)
    requires key in m
    ensures m[key] == Group(m, key)
  {}

  /** What a group holds, and which keys have one. */
  lemma GroupMeans(m: Index, all: set<Conn>, keyOf: Conn -> string, key: string)
    requires Groups(m, all, keyOf)
    ensures Group(m, key) == (set c | c in all && keyOf(c) == key)
    ensures key in m <==> exists c :: c in all && keyOf(c) == key
  {
    if key in m {
      var c :| c in m[key];
      assert c in Group(m, key);
    }
    forall c | c in all && keyOf(c) == key ensures c in Group(m, key) {}
  }

  // --- Any sequence of calls -----------------------------------------------------------

  datatype Op = Add(conn: Conn) | Remove(conn: Conn)

  function AfterAll(all: set<Conn>, ops: seq<Op>): set<Conn>
    decreases |ops|
  {
    if ops == [] then all
    else AfterAll(match ops[0] case Add(c) => all + {c} case Remove(c) => all - {c}, ops[1..])
  }

  function IndexAfter(m: Index, ops: seq<Op>, keyOf: Conn -> string): Index
    decreases |ops|
  {
    if ops == [] then m
    else
      IndexAfter(match ops[0] case Add(c) => Added(m, keyOf(c), c) case Remove(c) => Removed(m, keyOf(c), c),
                 ops[1..], keyOf)
  }

  /** After any sequence of additions and removals an index still groups the one set of connections. */
  lemma {:induction false} IndexStaysExact(m: Index, all: set<Conn>, ops: seq<Op>, keyOf: Conn -> string)
    requires Groups(m, all, keyOf)
    ensures Groups(IndexAfter(m, ops, keyOf), AfterAll(all, ops), keyOf)
    decreases |ops|
  {
    hide Groups;
    if ops != [] {
      match ops[0]
      case Add(c) =>
        AddingKeepsGroups(m, all, keyOf, c);
        IndexStaysExact(Added(m, keyOf(c), c), all + {c}, ops[1..], keyOf);
      case Remove(c) =>
        RemovingKeepsGroups(m, all, keyOf, c);
        IndexStaysExact(Removed(m, keyOf(c), c), all - {c}, ops[1..], keyOf);
    }
  }

  /** How often an account is named in a list. */
  function Mentions(accounts: seq<string>, account: string): nat {
    if accounts == [] then 0
    else Mentions(accounts[..|accounts| - 1], account) + if accounts[|accounts| - 1] == account then 1 else 0
  }

  lemma {:induction false} MentionedOnce(accounts: seq<string>, account: string)
    requires forall i, j :: 0 <= i < j < |accounts| ==> accounts[i] != accounts[j]
    ensures Mentions(accounts, account) == if account in accounts then 1 else 0
  {
    if accounts != [] {
      var rest := accounts[..|accounts| - 1];
      MentionedOnce(rest, account);
      assert accounts == rest + [accounts[|accounts| - 1]];
    }
  }

  class Hub {
    var byAccount: Index
    var byDevice: Index
    ghost var all: set<Conn>

    ghost predicate Valid()
      reads this
    {
      Groups(byAccount, all, AccountOf) && Groups(byDevice, all, DeviceOf)
    }

    constructor ()
      ensures Valid() && all == {}
    {
      byAccount, byDevice, all := map[], map[], {};
    }

    method Add(c: Conn)
      requires Valid()
      modifies this
      ensures Valid() && all == old(all) + {c}
    {
      AddingKeepsGroups(byAccount, all, AccountOf, c);
      AddingKeepsGroups(byDevice, all, DeviceOf, c);
      hide Groups;
      byAccount := AddTo(byAccount, c.account, c);
      byDevice := AddTo(byDevice, c.device, c);
      all := all + {c};
    }

    method Remove(c: Conn)
      requires Valid()
      modifies this
      ensures Valid() && all == old(all) - {c}
    {
      RemovingKeepsGroups(byAccount, all, AccountOf, c);
      RemovingKeepsGroups(byDevice, all, DeviceOf, c);
      hide Groups;
      byAccount := RemoveFrom(byAccount, c.account, c);
      byDevice := RemoveFrom(byDevice, c.device, c);
      all := all - {c};
    }

    method Online(account: string) returns (yes: bool)
      requires Valid()
      ensures yes <==> exists c :: c in all && c.account == account
    {
      GroupMeans(byAccount, all, AccountOf, account);
      hide Groups;
      var group := Group(byAccount, account);
      yes := |group| > 0;
      if yes {
        var c :| c in group;
        assert c in all && c.account == account;
      } else {
        assert forall c :: c in all && c.account == account ==> c in group;
      }
    }

    method ConnectionCount() returns (n: nat)
      requires Valid()
      ensures n == |all|
    {
      n := 0;
      ghost var counted: set<Conn> := {};
      var keys := byDevice.Keys;
      forall c | c in all ensures c.device in keys {
        GroupMeans(byDevice, all, DeviceOf, c.device);
      }
      while keys != {}
        invariant keys <= byDevice.Keys
        invariant counted == set c | c in all && c.device !in keys
        invariant n == |counted|
        decreases |keys|
      {
        var key :| key in keys;
        GroupMeans(byDevice, all, DeviceOf, key);
        hide Groups, Group;
        assert byDevice[key] == Group(byDevice, key) by {
          GroupAt(byDevice, key);
        }
        n := n + |byDevice[key]|;
        assert counted !! byDevice[key];
        counted := counted + byDevice[key];
        keys := keys - {key};
      }
      assert counted == all;
    }

    /** Every connection gets the frame once for each time its account is named. */
    method SendToAccounts(accounts: seq<string>) returns (sent: multiset<Conn>)
      requires Valid()
      ensures forall c :: sent[c] == if c in all then Mentions(accounts, c.account) else 0
    {
      sent := multiset{};
      var i := 0;
      while i < |accounts|
        invariant 0 <= i <= |accounts|
        invariant forall c :: sent[c] == if c in all then Mentions(accounts[..i], c.account) else 0
      {
        assert accounts[..i + 1][..i] == accounts[..i];
        GroupMeans(byAccount, all, AccountOf, accounts[i]);
        hide Groups, Group;
        var group := SendToGroup(Group(byAccount, accounts[i]));
        sent := sent + group;
        i := i + 1;
      }
      assert accounts[..|accounts|] == accounts;
    }

    method SendToDevice(device: string) returns (sent: multiset<Conn>)
      requires Valid()
      ensures forall c :: sent[c] == if c in all && c.device == device then 1 else 0
    {
      GroupMeans(byDevice, all, DeviceOf, device);
      sent := SendToGroup(Group(byDevice, device));
    }
  }

  method SendToGroup(group: set<Conn>) returns (sent: multiset<Conn>)
    ensures sent == multiset(group)
  {
    sent := multiset{};
    var left := group;
    while left != {}
      invariant left <= group
      invariant sent == multiset(group - left)
      decreases |left|
    {
      var c :| c in left;
      assert group - (left - {c}) == (group - left) + {c};
      sent := sent + multiset{c};
      left := left - {c};
    }
  }

  method AddTo(m: Index, key: string, c: Conn) returns (r: Index)
    ensures r == Added(m, key, c)
  {
    var group := {};
    if key in m {
      group := m[key];
    }
    r := m[key := group + {c}];
  }

  method RemoveFrom(m: Index, key: string, c: Conn) returns (r: Index)
    ensures r == Removed(m, key, c)
  {
    r := m;
    if key in m {
      var group := m[key] - {c};
      r := r[key := group];
      if |group| == 0 {
        r := r - {key};
        assert r == m - {key};
      }
    }
  }

  // --- Who a message goes to -----------------------------------------------------------------

  /** Each account once, in the order it is first named. */
  function Distinct(accounts: seq<string>): (r: seq<string>)
    ensures forall a :: a in r <==> a in accounts
    ensures forall i, j :: 0 <= i < j < |r| ==> r[i] != r[j]
  {
    if accounts == [] then []
    else
      var rest, last := Distinct(accounts[..|accounts| - 1]), accounts[|accounts| - 1];
      assert accounts == accounts[..|accounts| - 1] + [last];
      if last in rest then rest else rest + [last]
  }

  /** The order is that of the first mentions: every mention of a later account comes after one of an earlier one. */
  lemma {:induction false} DistinctKeepsOrder(accounts: seq<string>, i: nat, j: nat, k: nat)
    requires i < j < |Distinct(accounts)| && k < |accounts| && accounts[k] == Distinct(accounts)[j]
    ensures Distinct(accounts)[i] in accounts[..k]
  {
    var n := |accounts| - 1;
    var rest := Distinct(accounts[..n]);
    forall q | 0 <= q < n ensures accounts[q] in rest {
      assert accounts[..n][q] in accounts[..n];
    }
    if j < |rest| && k < n {
      DistinctKeepsOrder(accounts[..n], i, j, k);
      assert accounts[..n][..k] == accounts[..k];
    } else {
      assert rest[i] in rest;
    }
  }

  /** The recipients of an envelope without repetitions, as sending collects them. */
  method DistinctRecipients(accounts: seq<string>) returns (recipients: seq<string>)
    ensures recipients == Distinct(accounts)
  {
    recipients := [];
    var seen: map<string, bool> := map[];
    var i := 0;
    while i < |accounts|
      invariant 0 <= i <= |accounts|
      invariant recipients == Distinct(accounts[..i])
      invariant forall a :: a in seen && seen[a] <==> a in recipients
    {
      assert accounts[..i + 1][..i] == accounts[..i];
      var id := accounts[i];
      if !(id in seen && seen[id]) {
        seen := seen[id := true];
        recipients := recipients + [id];
      }
      i := i + 1;
    }
    assert accounts[..|accounts|] == accounts;
  }
}
