/** roundRobin of grpc/balancer.go: a rotation over connected addresses and a channel on which
    callers wait when there is none. */
module Balancer {
  import opened Words

  datatype Address = Address(addr: string, metadata: int)

  datatype AddrInfo = AddrInfo(addr: Address, connected: bool)

  datatype Update = Add(addr: Address) | Delete(addr: Address) | Unknown

  /** Channels are numbered as they are made; `closed` holds the closed ones. */
  datatype Balancer = Balancer(
    addrs: seq<AddrInfo>, next: nat, waitCh: Option<nat>, done: bool, made: nat, closed: set<nat>)

  /** What Get does: returns an address or an error, or blocks on a channel. */
  datatype Answer = Addr(addr: Address) | ErrClosing | ErrNoAddress | Wait(ch: nat)

  // ------------------------------------------------------------ address list

  predicate Distinct(xs: seq<AddrInfo>) {
    forall i, j :: 0 <= i < j < |xs| ==> xs[i].addr != xs[j].addr
  }

  predicate NoneConnected(xs: seq<AddrInfo>) {
    forall i :: 0 <= i < |xs| ==> !xs[i].connected
  }

  /** The first entry of an address, or |xs|. */
  function IndexOf(xs: seq<AddrInfo>, a: Address): (i: nat)
    ensures i <= |xs| && (i < |xs| ==> xs[i].addr == a)
    ensures forall j :: 0 <= j < i ==> xs[j].addr != a
  {
    if xs == [] || xs[0].addr == a then 0
    else
      var i := IndexOf(xs[1..], a);
      assert forall j :: 0 < j < 1 + i ==> xs[j].addr == xs[1..][j - 1].addr;
      1 + i
  }

  function Applied(xs: seq<AddrInfo>, u: Update): seq<AddrInfo> {
    match u
    case Add(a) => if IndexOf(xs, a) < |xs| then xs else xs + [AddrInfo(a, false)]
    case Delete(a) =>
      var i := IndexOf(xs, a);
      if i < |xs| then xs[..i] + xs[i + 1..] else xs
    case Unknown => xs
  }

  function AllApplied(xs: seq<AddrInfo>, us: seq<Update>): seq<AddrInfo> {
    if us == [] then xs else Applied(AllApplied(xs, us[..|us| - 1]), us[|us| - 1])
  }

  function Set(xs: seq<AddrInfo>, a: Address, connected: bool): seq<AddrInfo> {
    var i := IndexOf(xs, a);
    if i < |xs| then xs[i := AddrInfo(a, connected)] else xs
  }

  lemma {:induction false} AppliedKeeps(xs: seq<AddrInfo>, u: Update)
    requires Distinct(xs)
    ensures Distinct(Applied(xs, u))
    ensures NoneConnected(xs) ==> NoneConnected(Applied(xs, u))
  {
    match u
    case Add(a) => AddKeeps(xs, a);
    case Delete(a) =>
      if IndexOf(xs, a) < |xs| {
        DropKeeps(xs, IndexOf(xs, a));
      }
    case Unknown =>
  }

  lemma {:induction false} AddKeeps(xs: seq<AddrInfo>, a: Address)
    requires Distinct(xs)
    ensures Distinct(Applied(xs, Add(a)))
    ensures NoneConnected(xs) ==> NoneConnected(Applied(xs, Add(a)))
  {
    var ys := Applied(xs, Add(a));
    if IndexOf(xs, a) == |xs| {
      forall p, q | 0 <= p < q < |ys| ensures ys[p].addr != ys[q].addr {
        assert ys[p] == xs[p] && (if q == |xs| then ys[q].addr == a else ys[q] == xs[q]);
      }
      forall p | 0 <= p < |ys| && NoneConnected(xs) ensures !ys[p].connected {
        assert p < |xs| ==> ys[p] == xs[p];
      }
    }
  }

  lemma {:induction false} DropKeeps(xs: seq<AddrInfo>, i: nat)
    requires Distinct(xs) && i < |xs|
    ensures Distinct(xs[..i] + xs[i + 1..])
    ensures NoneConnected(xs) ==> NoneConnected(xs[..i] + xs[i + 1..])
  {
    var ys := xs[..i] + xs[i + 1..];
    forall p, q | 0 <= p < q < |ys| ensures ys[p].addr != ys[q].addr {
      assert ys[p] == xs[if p < i then p else p + 1] && ys[q] == xs[if q < i then q else q + 1];
    }
    forall p | 0 <= p < |ys| && NoneConnected(xs) ensures !ys[p].connected {
      assert ys[p] == xs[if p < i then p else p + 1];
    }
  }

  lemma {:induction false} AllAppliedKeeps(xs: seq<AddrInfo>, us: seq<Update>)
    requires Distinct(xs)
    ensures Distinct(AllApplied(xs, us))
    ensures NoneConnected(xs) ==> NoneConnected(AllApplied(xs, us))
  {
    if us != [] {
      AllAppliedKeeps(xs, us[..|us| - 1]);
      AppliedKeeps(AllApplied(xs, us[..|us| - 1]), us[|us| - 1]);
    }
  }

  // ------------------------------------------- what a list of updates comes to

  predicate Listed(xs: seq<AddrInfo>, a: Address) {
    exists i :: 0 <= i < |xs| && xs[i].addr == a
  }

  /** The last update about an address: is it to be listed? */
  function LastWord(us: seq<Update>, a: Address): Option<bool> {
    if us == [] then None
    else
      match us[|us| - 1]
      case Add(b) => if b == a then Some(true) else LastWord(us[..|us| - 1], a)
      case Delete(b) => if b == a then Some(false) else LastWord(us[..|us| - 1], a)
      case Unknown => LastWord(us[..|us| - 1], a)
  }

  /** The last update decides; without one nothing changes. */
  predicate ToBeListed(was: bool, us: seq<Update>, a: Address) {
    match LastWord(us, a)
    case Some(yes) => yes
    case None => was
  }

  /** The entries whose address is never deleted, in order. */
  function NeverDeleted(xs: seq<AddrInfo>, us: seq<Update>): seq<AddrInfo> {
    if xs == [] then []
    else (if Delete(xs[0].addr) in us then [] else [xs[0]]) + NeverDeleted(xs[1..], us)
  }

  /** First the entries that were never deleted, as they were, then new ones, none of them
      connected. */
  predicate KeptThenNew(xs: seq<AddrInfo>, us: seq<Update>, ys: seq<AddrInfo>) {
    && NeverDeleted(xs, us) <= ys
    && forall i :: |NeverDeleted(xs, us)| <= i < |ys| ==> !ys[i].connected
  }

  lemma {:induction false} ListedAt(xs: seq<AddrInfo>, a: Address)
    ensures Listed(xs, a) <==> IndexOf(xs, a) < |xs|
  {
  }

  lemma {:induction false} NeverDeletedAll(xs: seq<AddrInfo>)
    ensures NeverDeleted(xs, []) == xs
  {
    if xs != [] {
      NeverDeletedAll(xs[1..]);
      assert xs == [xs[0]] + xs[1..];
    }
  }

  /** An update that deletes nothing of them. */
  lemma {:induction false} NeverDeletedSame(xs: seq<AddrInfo>, us: seq<Update>, u: Update)
    requires u.Delete? ==> forall i :: 0 <= i < |NeverDeleted(xs, us)| ==> NeverDeleted(xs, us)[i].addr != u.addr
    ensures NeverDeleted(xs, us + [u]) == NeverDeleted(xs, us)
  {
    if xs != [] {
      var ks, rest := NeverDeleted(xs, us), NeverDeleted(xs[1..], us);
      var gone := Delete(xs[0].addr) in us;
      assert ks == (if gone then [] else [xs[0]]) + rest;
      if u.Delete? {
        forall i | 0 <= i < |rest| ensures rest[i].addr != u.addr {
          assert rest[i] == ks[if gone then i else i + 1];
        }
        assert !gone ==> ks[0] == xs[0];
      }
      NeverDeletedSame(xs[1..], us, u);
    }
  }

  lemma {:induction false} FirstNever(xs: seq<AddrInfo>, us: seq<Update>)
    requires xs != []
    ensures NeverDeleted(xs, us) ==
      if Delete(xs[0].addr) in us then NeverDeleted(xs[1..], us) else [xs[0]] + NeverDeleted(xs[1..], us)
  {
  }

  /** One that deletes the i-th of them. */
  lemma {:induction false} NeverDeletedLess(xs: seq<AddrInfo>, us: seq<Update>, i: nat)
    requires Distinct(NeverDeleted(xs, us)) && i < |NeverDeleted(xs, us)|
    ensures var ks := NeverDeleted(xs, us);
      NeverDeleted(xs, us + [Delete(ks[i].addr)]) == ks[..i] + ks[i + 1..]
    decreases |xs|
  {
    assert xs != [];
    hide NeverDeleted;
    FirstNever(xs, us);
    if Delete(xs[0].addr) in us {
      FirstNever(xs, us + [Delete(NeverDeleted(xs, us)[i].addr)]);
      NeverDeletedLess(xs[1..], us, i);
    } else if i == 0 {
      FirstGone(xs, us);
    } else {
      var rest := NeverDeleted(xs[1..], us);
      RestDistinct(xs[0], rest);
      NeverDeletedLess(xs[1..], us, i - 1);
      LaterGone(xs, us, i);
    }
  }

  lemma {:induction false} LaterGone(xs: seq<AddrInfo>, us: seq<Update>, i: nat)
    requires xs != [] && Delete(xs[0].addr) !in us && 0 < i < |NeverDeleted(xs, us)| && Distinct(NeverDeleted(xs, us))
    requires var rest := NeverDeleted(xs[1..], us);
      i - 1 < |rest| && NeverDeleted(xs[1..], us + [Delete(rest[i - 1].addr)]) == rest[..i - 1] + rest[i..]
    ensures var ks := NeverDeleted(xs, us);
      NeverDeleted(xs, us + [Delete(ks[i].addr)]) == ks[..i] + ks[i + 1..]
  {
    hide NeverDeleted;
    FirstNever(xs, us);
    var ks, rest := NeverDeleted(xs, us), NeverDeleted(xs[1..], us);
    assert ks[0] == xs[0] && ks[0].addr != ks[i].addr;
    OneLess(xs[0], rest, i - 1);
    FirstNever(xs, us + [Delete(ks[i].addr)]);
  }

  lemma {:induction false} OneLess(x: AddrInfo, rest: seq<AddrInfo>, i: nat)
    requires i < |rest|
    ensures var ks := [x] + rest;
      ks[i + 1] == rest[i] && [x] + (rest[..i] + rest[i + 1..]) == ks[..i + 1] + ks[i + 2..]
  {
  }

  lemma {:induction false} FirstGone(xs: seq<AddrInfo>, us: seq<Update>)
    requires xs != [] && Delete(xs[0].addr) !in us && Distinct(NeverDeleted(xs, us))
    ensures NeverDeleted(xs, us + [Delete(xs[0].addr)]) == NeverDeleted(xs, us)[1..]
  {
    var ks, rest := NeverDeleted(xs, us), NeverDeleted(xs[1..], us);
    forall j | 0 <= j < |rest| ensures rest[j].addr != xs[0].addr {
      assert rest[j] == ks[j + 1] && xs[0] == ks[0];
    }
    hide Distinct;
    NeverDeletedSame(xs[1..], us, Delete(xs[0].addr));
  }

  lemma {:induction false} RestDistinct(x: AddrInfo, rest: seq<AddrInfo>)
    requires Distinct([x] + rest)
    ensures Distinct(rest)
  {
    forall p, q | 0 <= p < q < |rest| ensures rest[p].addr != rest[q].addr {
      assert rest[p] == ([x] + rest)[p + 1] && rest[q] == ([x] + rest)[q + 1];
    }
  }

  lemma {:induction false} PrefixDistinct(ks: seq<AddrInfo>, ys: seq<AddrInfo>)
    requires Distinct(ys) && ks <= ys
    ensures Distinct(ks)
  {
    forall p, q | 0 <= p < q < |ks| ensures ks[p].addr != ks[q].addr {
      assert ks[p] == ys[p] && ks[q] == ys[q];
    }
  }

  /** A kept entry is deleted. */
  lemma {:induction false} KeptGoes(ks: seq<AddrInfo>, ys: seq<AddrInfo>, i: nat)
    requires ks <= ys && i < |ks| && forall j :: |ks| <= j < |ys| ==> !ys[j].connected
    ensures var zs := ys[..i] + ys[i + 1..];
      ks[..i] + ks[i + 1..] <= zs && forall j :: |ks| - 1 <= j < |zs| ==> !zs[j].connected
  {
    var zs := ys[..i] + ys[i + 1..];
    forall j | |ks| - 1 <= j < |zs| ensures !zs[j].connected {
      assert zs[j] == ys[j + 1];
    }
  }

  /** A new one is. */
  lemma {:induction false} NewGoes(ks: seq<AddrInfo>, ys: seq<AddrInfo>, i: nat)
    requires ks <= ys && |ks| <= i < |ys| && forall j :: |ks| <= j < |ys| ==> !ys[j].connected
    ensures var zs := ys[..i] + ys[i + 1..];
      ks <= zs && forall j :: |ks| <= j < |zs| ==> !zs[j].connected
  {
    var zs := ys[..i] + ys[i + 1..];
    forall j | |ks| <= j < |zs| ensures !zs[j].connected {
      assert zs[j] == ys[if j < i then j else j + 1];
    }
  }

  lemma {:induction false} DeleteMore(xs: seq<AddrInfo>, us: seq<Update>, ys: seq<AddrInfo>, a: Address)
    requires Distinct(ys) && KeptThenNew(xs, us, ys)
    ensures KeptThenNew(xs, us + [Delete(a)], Applied(ys, Delete(a)))
  {
    hide Distinct, NeverDeleted;
    var ks, i := NeverDeleted(xs, us), IndexOf(ys, a);
    if i < |ks| {
      assert ks[i] == ys[i];
      PrefixDistinct(ks, ys);
      NeverDeletedLess(xs, us, i);
      KeptGoes(ks, ys, i);
    } else {
      forall j | 0 <= j < |ks| ensures ks[j].addr != a {
        assert ks[j] == ys[j];
      }
      NeverDeletedSame(xs, us, Delete(a));
      if i < |ys| {
        NewGoes(ks, ys, i);
      }
    }
  }

  /** One update. */
  lemma {:induction false} OneMore(xs: seq<AddrInfo>, us: seq<Update>, ys: seq<AddrInfo>, u: Update)
    requires Distinct(ys) && KeptThenNew(xs, us, ys)
    ensures KeptThenNew(xs, us + [u], Applied(ys, u))
  {
    hide Distinct, NeverDeleted;
    match u
    case Delete(a) => DeleteMore(xs, us, ys, a);
    case _ => NeverDeletedSame(xs, us, u);
  }

  lemma {:induction false} AddListed(ys: seq<AddrInfo>, b: Address, a: Address)
    ensures Listed(Applied(ys, Add(b)), a) <==> a == b || Listed(ys, a)
  {
    var zs := Applied(ys, Add(b));
    ListedAt(ys, b);
    if IndexOf(ys, b) == |ys| {
      assert zs[|ys|].addr == b;
      if j :| 0 <= j < |ys| && ys[j].addr == a {
        assert zs[j] == ys[j];
      }
      if j :| 0 <= j < |zs| && zs[j].addr == a {
        assert j < |ys| ==> zs[j] == ys[j];
      }
    }
  }

  lemma {:induction false} DeleteListed(ys: seq<AddrInfo>, b: Address, a: Address)
    requires Distinct(ys)
    ensures Listed(Applied(ys, Delete(b)), a) <==> a != b && Listed(ys, a)
  {
    var zs, i := Applied(ys, Delete(b)), IndexOf(ys, b);
    if i < |ys| {
      if j :| 0 <= j < |ys| && ys[j].addr == a && j != i {
        assert zs[if j < i then j else j - 1] == ys[j];
      }
      if j :| 0 <= j < |zs| && zs[j].addr == a {
        var k := if j < i then j else j + 1;
        assert zs[j] == ys[k];
      }
    }
  }

  lemma {:induction false} OneListed(ys: seq<AddrInfo>, us: seq<Update>, a: Address, was: bool)
    requires us != [] && Distinct(ys) && (Listed(ys, a) <==> ToBeListed(was, us[..|us| - 1], a))
    ensures Listed(Applied(ys, us[|us| - 1]), a) <==> ToBeListed(was, us, a)
  {
    hide Distinct, Listed;
    match us[|us| - 1]
    case Add(b) => AddListed(ys, b, a);
    case Delete(b) => DeleteListed(ys, b, a);
    case Unknown =>
  }

  /** What watchAddrUpdates does to a list without duplicates, whatever the updates: the last
      one about an address decides whether it is listed, those never deleted stay as they are
      and in order, and new ones come last, not connected. */
  lemma {:induction false} UpdatesApplied(xs: seq<AddrInfo>, us: seq<Update>)
    requires Distinct(xs)
    ensures var ys := AllApplied(xs, us);
      && Distinct(ys) && KeptThenNew(xs, us, ys)
      && forall a :: Listed(ys, a) <==> ToBeListed(Listed(xs, a), us, a)
  {
    hide Distinct, Applied, KeptThenNew, Listed;
    AllAppliedKeeps(xs, us);
    if us == [] {
      NeverDeletedAll(xs);
      NothingNew(xs);
    } else {
      var past, u := us[..|us| - 1], us[|us| - 1];
      UpdatesApplied(xs, past);
      var ys := AllApplied(xs, past);
      assert us == past + [u];
      OneMore(xs, past, ys, u);
      forall a ensures Listed(Applied(ys, u), a) <==> ToBeListed(Listed(xs, a), us, a) {
        OneListed(ys, us, a, Listed(xs, a));
      }
    }
  }

  lemma {:induction false} NothingNew(xs: seq<AddrInfo>)
    requires NeverDeleted(xs, []) == xs
    ensures KeptThenNew(xs, [], xs)
  {
  }

  // ---------------------------------------------------------------- rotation

  function Succ(i: nat, n: nat): (j: nat)
    requires i < n
    ensures j < n
  {
    if i + 1 == n then 0 else i + 1
  }

  /** How far j lies after i in the rotation. */
  function Dist(i: nat, j: nat, n: nat): nat
    requires i < n && j < n
  {
    if j >= i then j - i else j - i + n
  }

  /** The first connected of n entries from i on. */
  function Find(xs: seq<AddrInfo>, i: nat, n: nat): (r: Option<nat>)
    requires i < |xs|
    ensures r.Some? ==> r.value < |xs| && xs[r.value].connected
    decreases n
  {
    if n == 0 then None
    else if xs[i].connected then Some(i)
    else Find(xs, Succ(i, |xs|), n - 1)
  }

  lemma {:induction false} FindReaches(xs: seq<AddrInfo>, i: nat, n: nat, j: nat)
    requires i < |xs| && j < |xs| && xs[j].connected && Dist(i, j, |xs|) < n
    ensures Find(xs, i, n).Some?
    decreases n
  {
    if !xs[i].connected {
      FindReaches(xs, Succ(i, |xs|), n - 1, j);
    }
  }

  lemma {:induction false} FindMore(xs: seq<AddrInfo>, i: nat, n: nat)
    requires i < |xs| && Find(xs, i, n).Some?
    ensures Find(xs, i, n + 1) == Find(xs, i, n)
    decreases n
  {
    if !xs[i].connected {
      FindMore(xs, Succ(i, |xs|), n - 1);
    }
  }

  /** A full turn finds something exactly when something is connected. */
  lemma {:induction false} FindAll(xs: seq<AddrInfo>, i: nat)
    requires i < |xs|
    ensures Find(xs, i, |xs|).None? <==> NoneConnected(xs)
  {
    if !NoneConnected(xs) {
      var j :| 0 <= j < |xs| && xs[j].connected;
      FindReaches(xs, i, |xs|, j);
    }
  }

  /** Get. `blocking` is opts.BlockingWait; a woken caller looks again in the same way. */
  function Got(s: Balancer, blocking: bool): (Balancer, Answer) {
    var n := |s.addrs|;
    if s.done then (s, ErrClosing)
    else if n > 0 && Find(s.addrs, if s.next >= n then 0 else s.next, n).Some? then
      var i := Find(s.addrs, if s.next >= n then 0 else s.next, n).value;
      (s.(next := Succ(i, n)), Addr(s.addrs[i].addr))
    else
      var t := if n > 0 && s.next >= n then s.(next := 0) else s;
      if blocking then
        if t.waitCh.Some? then (t, Wait(t.waitCh.value))
        else (t.(waitCh := Some(t.made), made := t.made + 1), Wait(t.made))
      else if n == 0 then (t, ErrNoAddress)
      else (t.(next := t.next + 1), Addr(t.addrs[t.next].addr))
  }

  /** The entries k calls in a row return while nothing else happens. */
  function Picks(xs: seq<AddrInfo>, i: nat, k: nat): seq<nat>
    requires i < |xs| && !NoneConnected(xs)
    decreases k
  {
    if k == 0 then []
    else
      FindAll(xs, i);
      var j := Find(xs, i, |xs|).value;
      [j] + Picks(xs, Succ(j, |xs|), k - 1)
  }

  /** The connected ones among n entries from i on. */
  function Order(xs: seq<AddrInfo>, i: nat, n: nat): seq<nat>
    requires i < |xs|
    decreases n
  {
    if n == 0 then []
    else if xs[i].connected then [i] + Order(xs, Succ(i, |xs|), n - 1)
    else Order(xs, Succ(i, |xs|), n - 1)
  }

  /** It lists exactly the connected entries in reach, in cyclic order. */
  lemma {:induction false} OrderLists(xs: seq<AddrInfo>, i: nat, n: nat)
    requires i < |xs| && n <= |xs|
    ensures forall a :: 0 <= a < |Order(xs, i, n)| ==>
              var j := Order(xs, i, n)[a]; j < |xs| && xs[j].connected && Dist(i, j, |xs|) < n
    ensures forall j :: 0 <= j < |xs| && xs[j].connected && Dist(i, j, |xs|) < n ==> j in Order(xs, i, n)
    ensures forall a, b :: 0 <= a < b < |Order(xs, i, n)| ==>
              Dist(i, Order(xs, i, n)[a], |xs|) < Dist(i, Order(xs, i, n)[b], |xs|)
    decreases n
  {
    if n > 0 {
      var i', rest := Succ(i, |xs|), Order(xs, Succ(i, |xs|), n - 1);
      OrderLists(xs, i', n - 1);
      assert forall j :: 0 <= j < |xs| && j != i ==> Dist(i, j, |xs|) == Dist(i', j, |xs|) + 1;
      assert Dist(i', i, |xs|) == |xs| - 1;
      forall j | 0 <= j < |xs| && xs[j].connected && Dist(i, j, |xs|) < n ensures j in Order(xs, i, n) {
        if j != i {
          assert j in rest;
        }
      }
    }
  }

  /** Calls in a row return the connected entries in that order. */
  lemma {:induction false} PicksInOrder(xs: seq<AddrInfo>, i: nat, n: nat)
    requires i < |xs| && n <= |xs| && !NoneConnected(xs)
    ensures Picks(xs, i, |Order(xs, i, n)|) == Order(xs, i, n)
    decreases n
  {
    if n > 0 {
      var i' := Succ(i, |xs|);
      PicksInOrder(xs, i', n - 1);
      if !xs[i].connected {
        FindAll(xs, i);
        FindMore(xs, i', |xs| - 1);
        assert Find(xs, i, |xs|) == Find(xs, i', |xs|);
      } else {
        assert Find(xs, i, |xs|) == Some(i);
      }
    }
  }

  function Connected(xs: seq<AddrInfo>): set<nat> {
    set i: nat | i < |xs| && xs[i].connected
  }

  function Elements(ks: seq<nat>): set<nat> {
    set i | i in ks
  }

  lemma {:induction false} Cardinality(ks: seq<nat>)
    requires forall a, b :: 0 <= a < b < |ks| ==> ks[a] != ks[b]
    ensures |Elements(ks)| == |ks|
  {
    if ks != [] {
      var m := |ks| - 1;
      Cardinality(ks[..m]);
      assert ks[m] !in Elements(ks[..m]);
      assert ks == ks[..m] + [ks[m]];
      assert Elements(ks) == Elements(ks[..m]) + {ks[m]};
    }
  }

  /** Fairness: with k > 0 addresses connected and nothing else happening, k calls return each
      connected address exactly once, in cyclic order from `next`. */
  lemma {:induction false} Fairness(xs: seq<AddrInfo>, next: nat)
    requires next < |xs| && !NoneConnected(xs)
    ensures var k, ps := |Connected(xs)|, Picks(xs, next, |Connected(xs)|);
      && |ps| == k > 0
      && (forall j :: j in ps <==> j in Connected(xs))
      && (forall a :: 0 <= a < k ==> ps[a] < |xs|)
      && (forall a, b :: 0 <= a < b < k ==> Dist(next, ps[a], |xs|) < Dist(next, ps[b], |xs|))
  {
    var o := Order(xs, next, |xs|);
    OrderLists(xs, next, |xs|);
    PicksInOrder(xs, next, |xs|);
    Cardinality(o);
    assert Elements(o) == Connected(xs);
    var j :| 0 <= j < |xs| && xs[j].connected;
    assert j in o;
  }

  /** The answers of k Get calls in a row. */
  function Answers(s: Balancer, blocking: bool, k: nat): seq<Answer>
    decreases k
  {
    if k == 0 then [] else [Got(s, blocking).1] + Answers(Got(s, blocking).0, blocking, k - 1)
  }

  lemma {:induction false} AnswersArePicks(s: Balancer, blocking: bool, k: nat)
    requires !s.done && !NoneConnected(s.addrs)
    ensures var ps := Picks(s.addrs, if s.next >= |s.addrs| then 0 else s.next, k);
      && |ps| == k && |Answers(s, blocking, k)| == k
      && forall a :: 0 <= a < k ==>
           ps[a] < |s.addrs| && Answers(s, blocking, k)[a] == Addr(s.addrs[ps[a]].addr)
    decreases k
  {
    if k > 0 {
      FindAll(s.addrs, if s.next >= |s.addrs| then 0 else s.next);
      var next := if s.next >= |s.addrs| then 0 else s.next;
      var j, t := Find(s.addrs, next, |s.addrs|).value, Got(s, blocking).0;
      AnswersArePicks(t, blocking, k - 1);
      var ps, rs := Picks(s.addrs, next, k), Answers(s, blocking, k);
      assert ps == [j] + Picks(s.addrs, t.next, k - 1);
      forall a | 0 <= a < k ensures ps[a] < |s.addrs| && rs[a] == Addr(s.addrs[ps[a]].addr) {
        if a > 0 {
          assert ps[a] == Picks(s.addrs, t.next, k - 1)[a - 1] && rs[a] == Answers(t, blocking, k - 1)[a - 1];
        }
      }
    }
  }

  /** The entry a turns after i. */
  function Along(i: nat, a: nat, n: nat): (j: nat)
    requires i < n
    ensures j < n
    decreases a
  {
    if a == 0 then i else Along(Succ(i, n), a - 1, n)
  }

  /** With none connected, fail-fast calls go around all the addresses. */
  lemma {:induction false} FailFastRotates(s: Balancer, k: nat)
    requires !s.done && NoneConnected(s.addrs) && s.addrs != []
    ensures var n, first, rs := |s.addrs|, if s.next >= |s.addrs| then 0 else s.next, Answers(s, false, k);
      |rs| == k && forall a :: 0 <= a < k ==> rs[a] == Addr(s.addrs[Along(first, a, n)].addr)
    decreases k
  {
    if k > 0 {
      var n, first, rs := |s.addrs|, if s.next >= |s.addrs| then 0 else s.next, Answers(s, false, k);
      FailFast(s);
      hide Got, NoneConnected;
      var t := Got(s, false).0;
      FailFastRotates(t, k - 1);
      forall a | 0 <= a < k ensures rs[a] == Addr(s.addrs[Along(first, a, n)].addr) {
        if a > 0 {
          assert rs[a] == Answers(t, false, k - 1)[a - 1];
          assert Along(first, a, n) == Along(Succ(first, n), a - 1, n);
        }
      }
    }
  }

  lemma {:induction false} FailFast(s: Balancer)
    requires !s.done && NoneConnected(s.addrs) && s.addrs != []
    ensures var (t, a) := Got(s, false); var first := if s.next >= |s.addrs| then 0 else s.next;
      t == s.(next := first + 1) && a == Addr(s.addrs[first].addr)
  {
  }

  // ------------------------------------------------------------ other methods

  function Watched(s: Balancer, us: seq<Update>): Balancer {
    s.(addrs := AllApplied(s.addrs, us))
  }

  function Notified(s: Balancer): Balancer {
    if s.waitCh.Some? then s.(closed := s.closed + {s.waitCh.value}, waitCh := None) else s
  }

  /** Up, on a list without duplicates. */
  function Upped(s: Balancer, a: Address): Balancer {
    var i := IndexOf(s.addrs, a);
    if i < |s.addrs| && s.addrs[i].connected then s
    else
      var t := s.(addrs := Set(s.addrs, a, true));
      if |Connected(t.addrs)| == 1 then Notified(t) else t
  }

  function Downed(s: Balancer, a: Address): Balancer {
    s.(addrs := Set(s.addrs, a, false))
  }

  function ClosedDown(s: Balancer): Balancer {
    Notified(s.(done := true))
  }

  /** After Up the address is connected, if it is listed; nothing else has changed. */
  lemma {:induction false} UpConnects(s: Balancer, a: Address)
    requires Distinct(s.addrs)
    ensures var ys := Upped(s, a).addrs;
      && |ys| == |s.addrs|
      && forall i :: 0 <= i < |ys| ==>
           ys[i].addr == s.addrs[i].addr && (ys[i].connected <==> s.addrs[i].connected || s.addrs[i].addr == a)
  {
    OnlyIndex(s.addrs, a);
  }

  /** After down it is not. */
  lemma {:induction false} DownDisconnects(s: Balancer, a: Address)
    requires Distinct(s.addrs)
    ensures var ys := Downed(s, a).addrs;
      && |ys| == |s.addrs|
      && forall i :: 0 <= i < |ys| ==>
           ys[i].addr == s.addrs[i].addr && (ys[i].connected <==> s.addrs[i].connected && s.addrs[i].addr != a)
  {
    OnlyIndex(s.addrs, a);
  }

  lemma {:induction false} OnlyIndex(xs: seq<AddrInfo>, a: Address)
    requires Distinct(xs)
    ensures forall i :: 0 <= i < |xs| && xs[i].addr == a ==> i == IndexOf(xs, a)
  {
  }

  // --------------------------------------------------------------- whole runs

  /** The balancer and the blocked Get calls, with the channel each waits on. `started`: Start
      has been called; `resolving`: with a name resolver. */
  datatype State = State(b: Balancer, started: bool, resolving: bool, waiters: seq<Option<nat>>)

  datatype Step =
    | Start(target: Address, resolver: bool)
    | Watch(us: seq<Update>) | Up(addr: Address) | Down(addr: Address) | Close
    | Get(blocking: bool) | Wake(w: nat) | GiveUp(w: nat)

  predicate Initial(s: State) {
    && s.b.addrs == [] && s.b.next == 0 && s.b.waitCh.None? && !s.b.done && s.b.closed == {} && s.b.made == 0
    && !s.started && !s.resolving && s.waiters == []
  }

  predicate Enabled(s: State, step: Step) {
    match step
    case Start(_, _) => !s.started
    case Watch(_) => s.resolving
    case Wake(w) => w < |s.waiters| && s.waiters[w].Some? && s.waiters[w].value in s.b.closed
    case GiveUp(w) => w < |s.waiters|
    case _ => true
  }

  function Waiter(a: Answer): Option<nat> {
    if a.Wait? then Some(a.ch) else None
  }

  function After(s: State, step: Step): State
    requires Enabled(s, step)
  {
    match step
    case Start(a, resolver) =>
      if s.b.done then s
      else if resolver then s.(started := true, resolving := true)
      else s.(started := true, b := s.b.(addrs := s.b.addrs + [AddrInfo(a, false)]))
    case Watch(us) => s.(b := Watched(s.b, us))
    case Up(a) => s.(b := Upped(s.b, a))
    case Down(a) => s.(b := Downed(s.b, a))
    case Close => s.(b := ClosedDown(s.b))
    case Get(blocking) =>
      var (b, a) := Got(s.b, blocking);
      s.(b := b, waiters := s.waiters + [Waiter(a)])
    case Wake(w) =>
      var (b, a) := Got(s.b, true);
      s.(b := b, waiters := s.waiters[w := Waiter(a)])
    case GiveUp(w) => s.(waiters := s.waiters[w := None])
  }

  predicate BalancerInv(b: Balancer) {
    && Distinct(b.addrs)
    && (b.waitCh.Some? ==> NoneConnected(b.addrs) && !b.done && b.waitCh.value < b.made && b.waitCh.value !in b.closed)
    && forall ch :: ch in b.closed ==> ch < b.made
  }

  ghost predicate Inv(s: State) {
    && BalancerInv(s.b)
    && (!s.started ==> s.b.addrs == [] && !s.resolving)
    && forall w :: 0 <= w < |s.waiters| && s.waiters[w].Some? ==>
         var ch := s.waiters[w].value; ch in s.b.closed || s.b.waitCh == Some(ch)
  }

  /** The first address to connect is the only one: cnt == 1. */
  lemma {:induction false} FirstConnected(xs: seq<AddrInfo>, i: nat)
    requires i < |xs| && NoneConnected(xs)
    ensures Connected(xs[i := AddrInfo(xs[i].addr, true)]) == {i}
  {
  }

  lemma {:induction false} NobodyConnected(xs: seq<AddrInfo>)
    ensures NoneConnected(xs) <==> Connected(xs) == {}
  {
    if !NoneConnected(xs) {
      var j :| 0 <= j < |xs| && xs[j].connected;
      assert j in Connected(xs);
    }
  }

  lemma {:induction false} UpKeeps(b: Balancer, a: Address)
    requires BalancerInv(b)
    ensures BalancerInv(Upped(b, a))
    ensures Upped(b, a).waitCh == b.waitCh || (Upped(b, a).waitCh.None? && b.waitCh.value in Upped(b, a).closed)
    ensures b.closed <= Upped(b, a).closed && |Upped(b, a).addrs| == |b.addrs|
  {
    var i := IndexOf(b.addrs, a);
    if b.waitCh.Some? && i < |b.addrs| {
      FirstConnected(b.addrs, i);
    } else if b.waitCh.Some? {
      NobodyConnected(b.addrs);
    }
  }

  lemma {:induction false} GotKeeps(b: Balancer, blocking: bool)
    requires BalancerInv(b)
    ensures var (c, a) := Got(b, blocking);
      && BalancerInv(c) && c.addrs == b.addrs && c.closed == b.closed && (b.waitCh.Some? ==> c.waitCh == b.waitCh)
      && (a.Wait? ==> c.waitCh == Some(a.ch))
  {
    if |b.addrs| > 0 {
      FindAll(b.addrs, if b.next >= |b.addrs| then 0 else b.next);
    }
  }

  lemma {:induction false} StepKeeps(s: State, step: Step)
    requires Inv(s) && Enabled(s, step)
    ensures Inv(After(s, step))
  {
    hide Upped, Got;
    match step
    case Watch(us) => AllAppliedKeeps(s.b.addrs, us);
    case Up(a) => UpKeeps(s.b, a);
    case Get(blocking) => GotKeeps(s.b, blocking);
    case Wake(w) => GotKeeps(s.b, true);
    case _ =>
  }

  predicate Legal(s: State, steps: seq<Step>)
    decreases |steps|
  {
    steps == [] || (Enabled(s, steps[0]) && Legal(After(s, steps[0]), steps[1..]))
  }

  function Final(s: State, steps: seq<Step>): State
    requires Legal(s, steps)
    decreases |steps|
  {
    if steps == [] then s else Final(After(s, steps[0]), steps[1..])
  }

  lemma {:induction false} RunKeeps(s: State, steps: seq<Step>)
    requires Inv(s) && Legal(s, steps)
    ensures Inv(Final(s, steps))
    decreases |steps|
  {
    hide Inv, After, Enabled;
    if steps != [] {
      StepKeeps(s, steps[0]);
      RunKeeps(After(s, steps[0]), steps[1..]);
    }
  }

  // -------------------------------------- the addresses, from the steps of a run alone

  /** Is the address listed after these steps? */
  predicate Present(steps: seq<Step>, a: Address) {
    steps != [] &&
    var past := steps[..|steps| - 1];
    match steps[|steps| - 1]
    case Start(target, resolver) => Present(past, a) || (target == a && !resolver && Close !in past)
    case Watch(us) => ToBeListed(Present(past, a), us, a)
    case _ => Present(past, a)
  }

  /** And is it connected? */
  predicate IsUp(steps: seq<Step>, a: Address) {
    steps != [] &&
    var past := steps[..|steps| - 1];
    match steps[|steps| - 1]
    case Up(b) => if b == a then Present(past, a) else IsUp(past, a)
    case Down(b) => b != a && IsUp(past, a)
    case Watch(us) => Delete(a) !in us && IsUp(past, a)
    case _ => IsUp(past, a)
  }

  predicate ConnectedIn(xs: seq<AddrInfo>, a: Address) {
    exists i :: 0 <= i < |xs| && xs[i].addr == a && xs[i].connected
  }

  lemma {:induction false} LastStep(s: State, steps: seq<Step>)
    requires steps != [] && Legal(s, steps)
    ensures var past, last := steps[..|steps| - 1], steps[|steps| - 1];
      Legal(s, past) && Enabled(Final(s, past), last) && Final(s, steps) == After(Final(s, past), last)
    decreases |steps|
  {
    hide After, Enabled;
    if |steps| > 1 {
      assert steps[1..][..|steps| - 2] == steps[..|steps| - 1][1..];
      LastStep(After(s, steps[0]), steps[1..]);
    }
  }

  lemma {:induction false} WatchConnected(xs: seq<AddrInfo>, us: seq<Update>, a: Address)
    requires Distinct(xs)
    ensures ConnectedIn(AllApplied(xs, us), a) <==> ConnectedIn(xs, a) && Delete(a) !in us
  {
    var ys, ks := AllApplied(xs, us), NeverDeleted(xs, us);
    UpdatesApplied(xs, us);
    NeverDeletedHas(xs, us, a);
    hide NeverDeleted, AllApplied, Listed, Distinct;
    if i :| 0 <= i < |ys| && ys[i].addr == a && ys[i].connected {
      assert ks[i] == ys[i];
    }
    if ConnectedIn(ks, a) {
      var i :| 0 <= i < |ks| && ks[i].addr == a && ks[i].connected;
      assert ys[i] == ks[i];
    }
  }

  lemma {:induction false} NeverDeletedHas(xs: seq<AddrInfo>, us: seq<Update>, a: Address)
    ensures ConnectedIn(NeverDeleted(xs, us), a) <==> ConnectedIn(xs, a) && Delete(a) !in us
  {
    if xs != [] {
      NeverDeletedHas(xs[1..], us, a);
      FirstConnectedIn(xs, a);
      FirstNever(xs, us);
      var ks := NeverDeleted(xs, us);
      if Delete(xs[0].addr) !in us {
        assert ks[1..] == NeverDeleted(xs[1..], us);
        FirstConnectedIn(ks, a);
      }
    }
  }

  lemma {:induction false} FirstConnectedIn(xs: seq<AddrInfo>, a: Address)
    requires xs != []
    ensures ConnectedIn(xs, a) <==> (xs[0].addr == a && xs[0].connected) || ConnectedIn(xs[1..], a)
  {
    if i :| 0 <= i < |xs| && xs[i].addr == a && xs[i].connected {
      assert i > 0 ==> xs[1..][i - 1] == xs[i];
    }
    if i :| 0 <= i < |xs[1..]| && xs[1..][i].addr == a && xs[1..][i].connected {
      assert xs[i + 1] == xs[1..][i];
    }
  }

  /** What a step does to one address, listed and connected or not before. */
  predicate Tells(step: Step, a: Address, done: bool, listed: bool, up: bool, listed': bool, up': bool) {
    match step
    case Start(target, resolver) => listed' == (listed || (target == a && !resolver && !done)) && up' == up
    case Watch(us) => listed' == ToBeListed(listed, us, a) && up' == (Delete(a) !in us && up)
    case Up(b) => listed' == listed && up' == if b == a then listed else up
    case Down(b) => listed' == listed && up' == (b != a && up)
    case _ => listed' == listed && up' == up
  }

  lemma {:induction false} StartLists(target: Address, a: Address)
    ensures Listed([AddrInfo(target, false)], a) <==> target == a
    ensures !ConnectedIn([AddrInfo(target, false)], a) && !ConnectedIn([], a) && !Listed([], a)
  {
    assert [AddrInfo(target, false)][0].addr == target;
  }

  lemma {:induction false} UpLists(b: Balancer, c: Address, a: Address)
    requires Distinct(b.addrs)
    ensures var ys := Upped(b, c).addrs;
      && (Listed(ys, a) <==> Listed(b.addrs, a))
      && (ConnectedIn(ys, a) <==> if c == a then Listed(b.addrs, a) else ConnectedIn(b.addrs, a))
  {
    UpConnects(b, c);
    hide Upped;
    var xs, ys := b.addrs, Upped(b, c).addrs;
    SameList(xs, ys, a);
    if i :| 0 <= i < |xs| && xs[i].addr == a && (c == a || xs[i].connected) {
      assert ys[i].addr == a && ys[i].connected;
    }
  }

  lemma {:induction false} DownLists(b: Balancer, c: Address, a: Address)
    requires Distinct(b.addrs)
    ensures var ys := Downed(b, c).addrs;
      && (Listed(ys, a) <==> Listed(b.addrs, a))
      && (ConnectedIn(ys, a) <==> c != a && ConnectedIn(b.addrs, a))
  {
    DownDisconnects(b, c);
    hide Downed;
    var xs, ys := b.addrs, Downed(b, c).addrs;
    SameList(xs, ys, a);
    if i :| 0 <= i < |xs| && xs[i].addr == a && xs[i].connected && c != a {
      assert ys[i].addr == a && ys[i].connected;
    }
  }

  /** One step, about one address. */
  lemma {:induction false} StepLists(s: State, step: Step, a: Address)
    requires Inv(s) && Enabled(s, step)
    ensures var xs, ys := s.b.addrs, After(s, step).b.addrs;
      Tells(step, a, s.b.done, Listed(xs, a), ConnectedIn(xs, a), Listed(ys, a), ConnectedIn(ys, a))
    ensures After(s, step).b.done <==> s.b.done || step.Close?
  {
    hide Upped, Downed, Got, Listed, ConnectedIn, Distinct, AllApplied;
    var xs := s.b.addrs;
    match step
    case Start(target, resolver) =>
      StartLists(target, a);
      assert xs == [] && xs + [AddrInfo(target, false)] == [AddrInfo(target, false)];
    case Watch(us) =>
      UpdatesApplied(xs, us);
      WatchConnected(xs, us, a);
    case Up(b) =>
      UpLists(s.b, b, a);
      UpDone(s.b, b);
    case Down(b) =>
      DownLists(s.b, b, a);
      DownDone(s.b, b);
    case Get(blocking) => GotKeeps(s.b, blocking); GotDone(s.b, blocking);
    case Wake(w) => GotKeeps(s.b, true); GotDone(s.b, true);
    case _ =>
  }

  lemma {:induction false} DownDone(b: Balancer, a: Address)
    ensures Downed(b, a).done == b.done
  {
  }

  lemma {:induction false} UpDone(b: Balancer, a: Address)
    ensures Upped(b, a).done == b.done
  {
  }

  lemma {:induction false} GotDone(b: Balancer, blocking: bool)
    ensures Got(b, blocking).0.done == b.done
  {
  }

  lemma {:induction false} SameList(xs: seq<AddrInfo>, ys: seq<AddrInfo>, a: Address)
    requires |xs| == |ys| && forall i :: 0 <= i < |ys| ==> ys[i].addr == xs[i].addr
    ensures Listed(ys, a) <==> Listed(xs, a)
  {
    if i :| 0 <= i < |xs| && xs[i].addr == a {
      assert ys[i].addr == a;
    }
  }

  /** In every run: an address is listed as the last word about it has it, and connected if it
      was notified as up since it was listed, and not as down since. */
  lemma {:induction false} ListIsFromSteps(s: State, steps: seq<Step>, a: Address)
    requires Initial(s) && Legal(s, steps)
    ensures var t := Final(s, steps);
      && (Listed(t.b.addrs, a) <==> Present(steps, a)) && (ConnectedIn(t.b.addrs, a) <==> IsUp(steps, a))
      && (t.b.done <==> Close in steps)
    decreases |steps|
  {
    if steps != [] {
      var past, last := steps[..|steps| - 1], steps[|steps| - 1];
      LastStep(s, steps);
      ListIsFromSteps(s, past, a);
      RunKeeps(s, past);
      assert steps == past + [last];
      hide Legal, Final, After, Enabled, Inv, Listed, ConnectedIn, Initial;
      StepLists(Final(s, past), last, a);
    }
  }

  /** No lost wakeup: in every reachable state the addresses are distinct, an open waitCh means
      that none is connected, and once one is connected (or the balancer is closed) every
      blocked Get call can go on. */
  lemma {:induction false} NoLostWakeup(s: State, steps: seq<Step>, w: nat)
    requires Initial(s) && Legal(s, steps)
    ensures var t := Final(s, steps);
      && Distinct(t.b.addrs)
      && (t.b.waitCh.Some? ==> NoneConnected(t.b.addrs) && t.b.waitCh.value !in t.b.closed)
      && (w < |t.waiters| && t.waiters[w].Some? && (t.b.done || !NoneConnected(t.b.addrs)) ==> Enabled(t, Wake(w)))
  {
    RunKeeps(s, steps);
  }

  /** A call whose context ends waits no longer, and no other is affected. */
  lemma {:induction false} GivesUp(s: State, w: nat)
    requires Enabled(s, GiveUp(w))
    ensures var t := After(s, GiveUp(w));
      && t.b == s.b && |t.waiters| == |s.waiters| && t.waiters[w].None?
      && forall v :: 0 <= v < |s.waiters| && v != w ==> t.waiters[v] == s.waiters[v]
  {
  }

  /** And going on, it returns with a connected address. */
  lemma {:induction false} WokenReturns(s: State, w: nat)
    requires Inv(s) && Enabled(s, Wake(w)) && !s.b.done && !NoneConnected(s.b.addrs)
    ensures After(s, Wake(w)).waiters[w].None?
    ensures exists i :: 0 <= i < |s.b.addrs| && s.b.addrs[i].connected && Got(s.b, true).1 == Addr(s.b.addrs[i].addr)
  {
    FindAll(s.b.addrs, if s.b.next >= |s.b.addrs| then 0 else s.b.next);
  }

  // -------------------------------------------------------------------- object

  class RoundRobin {
    var addrs: seq<AddrInfo>
    var next: nat
    var waitCh: Option<nat>
    var done: bool
    var made: nat
    var closed: set<nat>

    function Value(): Balancer
      reads this
    {
      Balancer(addrs, next, waitCh, done, made, closed)
    }

    constructor ()
      ensures Value() == Balancer([], 0, None, false, 0, {}) && BalancerInv(Value())
    {
      addrs, next, waitCh, done, made, closed := [], 0, None, false, 0, {};
    }

    /** The scanning loop of Get: at most len(addrs) turns, ending at the first connected
        entry from next on. */
    method Scan(start: nat) returns (i: Option<nat>, ghost turns: nat)
      requires start < |addrs|
      ensures i == Find(addrs, start, |addrs|)
      ensures 0 < turns <= |addrs|
    {
      var at := start;
      turns := 0;
      while true
        invariant turns < |addrs| && at < |addrs|
        invariant at == if start + turns < |addrs| then start + turns else start + turns - |addrs|
        invariant Find(addrs, start, |addrs|) == Find(addrs, at, |addrs| - turns)
        decreases |addrs| - turns
      {
        var a, was := addrs[at], at;
        SuccIsMod(at, |addrs|);
        at := (at + 1) % |addrs|;
        turns := turns + 1;
        if a.connected {
          return Some(was), turns;
        }
        if at == start {
          return None, turns;
        }
      }
    }

    /** Get, and a woken Get with blocking set. */
    method Get(blocking: bool) returns (r: Answer)
      modifies this
      ensures (Value(), r) == Got(old(Value()), blocking)
    {
      if done {
        return ErrClosing;
      }
      if |addrs| > 0 {
        if next >= |addrs| {
          next := 0;
        }
        var i, _ := Scan(next);
        if i.Some? {
          SuccIsMod(i.value, |addrs|);
          next := (i.value + 1) % |addrs|;
          return Addr(addrs[i.value].addr);
        }
      }
      if !blocking {
        if |addrs| == 0 {
          return ErrNoAddress;
        }
        r := Addr(addrs[next].addr);
        next := next + 1;
        return;
      }
      if waitCh.None? {
        waitCh, made := Some(made), made + 1;
      }
      r := Wait(waitCh.value);
    }

    /** Up. Without duplicates the counting loop counts the connected addresses, so it
        notifies exactly when this one is the first. `nil`: the result is a nil function. */
    method Up(a: Address) returns (isNil: bool)
      requires Distinct(addrs)
      modifies this
      ensures Value() == Upped(old(Value()), a)
      ensures isNil <==> exists x :: x in old(addrs) && x.addr == a && x.connected
    {
      hide Connected;
      var cnt: nat, i: nat := 0, 0;
      ghost var was, k := addrs, IndexOf(addrs, a);
      NoneInEmpty(addrs);
      while i < |addrs|
        invariant i <= |was| && addrs == if k < i then Set(was, a, true) else was
        invariant cnt == |Connected(addrs[..i])|
        invariant k < i ==> !was[k].connected
        invariant next == old(next) && waitCh == old(waitCh) && done == old(done)
        invariant made == old(made) && closed == old(closed)
      {
        if addrs[i].addr == a {
          assert i == k;
          if addrs[i].connected {
            assert was[k] in was;
            return true;
          }
          addrs := addrs[i := addrs[i].(connected := true)];
          assert addrs[..i] == was[..i];
        }
        ConnectedStep(addrs, i);
        if addrs[i].connected {
          cnt := cnt + 1;
        }
        i := i + 1;
      }
      assert addrs[..i] == addrs;
      if cnt == 1 && waitCh.Some? {
        closed, waitCh := closed + {waitCh.value}, None;
      }
      isNil := false;
    }

    /** The loop over updates in watchAddrUpdates; the list sent to addrCh, or None for
        ErrClientConnClosing. */
    method WatchAddrUpdates(us: seq<Update>) returns (open: Option<seq<Address>>)
      modifies this
      ensures Value() == Watched(old(Value()), us)
      ensures Distinct(old(addrs)) ==>
        && Distinct(addrs) && KeptThenNew(old(addrs), us, addrs)
        && forall a :: Listed(addrs, a) <==> ToBeListed(Listed(old(addrs), a), us, a)
      ensures open.None? <==> done
      ensures open.Some? ==> |open.value| == |addrs| && forall i :: 0 <= i < |addrs| ==> open.value[i] == addrs[i].addr
    {
      var n := 0;
      assert us[..0] == [];
      while n < |us|
        invariant n <= |us| && Value() == Watched(old(Value()), us[..n])
      {
        assert us[..n + 1][..n] == us[..n];
        Apply(us[n]);
        n := n + 1;
      }
      assert us[..n] == us;
      if Distinct(old(addrs)) {
        UpdatesApplied(old(addrs), us);
      }
      hide *;
      if done {
        return None;
      }
      open := Some(seq(|addrs|, i requires 0 <= i < |addrs| reads this => addrs[i].addr));
    }

    method Apply(u: Update)
      modifies `addrs
      ensures addrs == Applied(old(addrs), u)
    {
      if u.Unknown? {
        return;
      }
      var i := 0;
      while i < |addrs|
        invariant i <= IndexOf(addrs, u.addr) && addrs == old(addrs)
      {
        if u.addr == addrs[i].addr {
          IndexHere(addrs, u.addr, i);
          if u.Delete? {
            addrs := addrs[..i] + addrs[i + 1..];
          }
          return;
        }
        IndexPast(addrs, u.addr, i);
        i := i + 1;
      }
      if u.Add? {
        addrs := addrs + [AddrInfo(u.addr, false)];
      }
    }

    /** Close: every waiter is woken. */
    method Close()
      modifies this
      ensures Value() == ClosedDown(old(Value()))
      ensures done && waitCh.None? && (old(waitCh).Some? ==> old(waitCh).value in closed)
    {
      done := true;
      if waitCh.Some? {
        closed, waitCh := closed + {waitCh.value}, None;
      }
    }

    /** down. */
    method Down(a: Address)
      modifies `addrs
      ensures Value() == Downed(old(Value()), a)
    {
      var i := 0;
      while i < |addrs|
        invariant i <= |addrs| && addrs == old(addrs)
        invariant i <= IndexOf(addrs, a)
      {
        if a == addrs[i].addr {
          IndexHere(addrs, a, i);
          addrs := addrs[i := addrs[i].(connected := false)];
          break;
        }
        IndexPast(addrs, a, i);
        i := i + 1;
      }
    }
  }

  lemma {:induction false} ConnectedStep(xs: seq<AddrInfo>, i: nat)
    requires i < |xs|
    ensures |Connected(xs[..i + 1])| == |Connected(xs[..i])| + if xs[i].connected then 1 else 0
  {
    var s := Connected(xs[..i]);
    assert Connected(xs[..i + 1]) == if xs[i].connected then s + {i} else s;
  }

  lemma {:induction false} SuccIsMod(i: nat, n: nat)
    requires i < n
    ensures (i + 1) % n == Succ(i, n)
  {
  }

  lemma {:induction false} NoneInEmpty(xs: seq<AddrInfo>)
    ensures |Connected(xs[..0])| == 0
  {
    assert Connected(xs[..0]) == {};
  }

  lemma {:induction false} IndexHere(xs: seq<AddrInfo>, a: Address, i: nat)
    requires i < |xs| && xs[i].addr == a && i <= IndexOf(xs, a)
    ensures IndexOf(xs, a) == i
  {
  }

  lemma {:induction false} IndexPast(xs: seq<AddrInfo>, a: Address, i: nat)
    requires i < |xs| && xs[i].addr != a && i <= IndexOf(xs, a)
    ensures i < IndexOf(xs, a)
  {
  }
}
