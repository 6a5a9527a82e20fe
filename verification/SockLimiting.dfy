/** Socket admission counts (Source/SockLimiting.cpp). `remove` forgets an address's connections altogether
    and leaves the total alone. */
module SockLimiting {
  import opened Sequences

  const MAX_SOCK: int := 1000
  const MAX_PER_SOCK: int := 3

  datatype State = State(count: int, perSock: map<string, int>)

  const START := State(0, map[])

  /** The total never gets past its limit; `add` relies on it not to look up a missing address. */
  predicate WithinLimit(s: State) {
    0 <= s.count <= MAX_SOCK
  }

  predicate IsMax(s: State) {
    s.count == MAX_SOCK
  }

  function AddStep(s: State, ip: string): (State, bool) {
    if IsMax(s) then (s, false)
    else if ip !in s.perSock then (State(s.count + 1, s.perSock[ip := 1]), true)
    else if s.perSock[ip] < MAX_PER_SOCK then (State(s.count + 1, s.perSock[ip := s.perSock[ip] + 1]), true)
    else (s, false)
  }

  function RemoveStep(s: State, ip: string): State {
    s.(perSock := s.perSock - {ip})
  }

  class SockLimiter {
    var count: int
    var perSock: map<string, int>

    ghost function View(): State
      reads this
    {
      State(count, perSock)
    }

    constructor ()
      ensures View() == START
    {
      count, perSock := 0, map[];
    }

    method Add(ip: string) returns (added: bool)
      requires WithinLimit(View())
      modifies this
      ensures (View(), added) == AddStep(old(View()), ip)
      ensures WithinLimit(View())
    {
      var full := IsMaxSock();
      if full {
        return false;
      }
      if (count < MAX_SOCK && ip !in perSock) || perSock[ip] < MAX_PER_SOCK {
        count := count + 1;
        if ip in perSock {
          perSock := perSock[ip := perSock[ip] + 1];
        } else {
          perSock := perSock[ip := 1];
        }
        return true;
      }
      return false;
    }

    method IsMaxSock() returns (full: bool)
      ensures full == IsMax(View())
    {
      full := count == MAX_SOCK;
    }

    method Remove(ip: string)
      modifies this
      ensures View() == RemoveStep(old(View()), ip)
    {
      perSock := perSock - {ip};
    }
  }

  // ------------------------------------------------------------------------------------------
  // Histories
  // ------------------------------------------------------------------------------------------

  datatype Op = Add(ip: string) | Remove(ip: string)

  ghost function Run(ops: seq<Op>): State {
    if ops == [] then START
    else
      var before := Run(Init(ops));
      match Last(ops)
      case Add(ip) => AddStep(before, ip).0
      case Remove(ip) => RemoveStep(before, ip)
  }

  ghost predicate LastAdds(ops: seq<Op>)
    requires ops != []
  {
    Last(ops).Add? && AddStep(Run(Init(ops)), Last(ops).ip).1
  }

  /** Successful adds so far. */
  ghost function Adds(ops: seq<Op>): nat {
    if ops == [] then 0 else Adds(Init(ops)) + (if LastAdds(ops) then 1 else 0)
  }

  /** Successful adds of one address since it was last removed. */
  ghost function AddsSinceRemove(ops: seq<Op>, ip: string): nat {
    if ops == [] then 0
    else
      var before := AddsSinceRemove(Init(ops), ip);
      if Last(ops) == Remove(ip) then 0
      else if LastAdds(ops) && Last(ops).ip == ip then before + 1
      else before
  }

  /** The sum of the counts that removals forgot. */
  ghost function Erased(ops: seq<Op>): int {
    if ops == [] then 0
    else
      var before, op := Init(ops), Last(ops);
      Erased(before) + (if op.Remove? && op.ip in Run(before).perSock then Run(before).perSock[op.ip] else 0)
  }

  ghost function Total(m: map<string, int>): int {
    if m == map[] then 0 else var k :| k in m; m[k] + Total(m - {k})
  }

  lemma {:induction false} TotalSplits(m: map<string, int>, k: string)
    requires k in m
    ensures Total(m) == m[k] + Total(m - {k})
    decreases |m|
  {
    var j :| j in m && Total(m) == m[j] + Total(m - {j});
    if j != k {
      TotalSplits(m - {j}, k);
      TotalSplits(m - {k}, j);
      assert m - {j} - {k} == m - {k} - {j};
    }
  }

  lemma TotalAfterUpdate(m: map<string, int>, k: string, v: int)
    ensures Total(m[k := v]) == Total(m) + v - (if k in m then m[k] else 0)
  {
    TotalSplits(m[k := v], k);
    assert m[k := v] - {k} == m - {k};
    if k in m {
      TotalSplits(m, k);
    } else {
      assert m - {k} == m;
    }
  }

  /** The state told by the history alone: the total counts every successful add there ever was, and each address
      its own since it was last removed, between one and three or else absent. */
  lemma {:induction false} StateCountsAdds(ops: seq<Op>, ip: string)
    ensures Run(ops).count == Adds(ops) <= 1000
    ensures ip in Run(ops).perSock <==> AddsSinceRemove(ops, ip) > 0
    ensures ip in Run(ops).perSock ==> Run(ops).perSock[ip] == AddsSinceRemove(ops, ip)
    ensures AddsSinceRemove(ops, ip) <= 3
  {
    if ops != [] {
      StateCountsAdds(Init(ops), ip);
    }
  }

  /** Exact behaviour: an add succeeds if and only if fewer than 1000 ever did and fewer than 3 of its address did
      since that address was last removed. */
  lemma AddSucceedsWhen(ops: seq<Op>, ip: string)
    ensures AddStep(Run(ops), ip).1 <==> Adds(ops) < 1000 && AddsSinceRemove(ops, ip) < 3
  {
    StateCountsAdds(ops, ip);
  }

  /** Nothing is lost: the total is what the addresses hold now plus what removals forgot. */
  lemma {:induction false} TotalIsConserved(ops: seq<Op>)
    ensures Run(ops).count == Total(Run(ops).perSock) + Erased(ops)
  {
    if ops != [] {
      var before, op := Init(ops), Last(ops);
      TotalIsConserved(before);
      var m := Run(before).perSock;
      match op {
        case Add(ip) =>
          TotalAfterUpdate(m, ip, if ip in m then m[ip] + 1 else 1);
        case Remove(ip) =>
          if ip in m {
            TotalSplits(m, ip);
          } else {
            assert m - {ip} == m;
          }
      }
    }
  }

  /** Saturation is for good: once 1000 adds have succeeded, no sequence of removals ever admits another. */
  lemma {:induction false} FullStaysFull(ops: seq<Op>, later: seq<Op>, ip: string)
    requires Adds(ops) == 1000
    ensures Adds(ops + later) == 1000 && !AddStep(Run(ops + later), ip).1
  {
    var all := ops + later;
    StateCountsAdds(all, ip);
    if later == [] {
      assert all == ops;
    } else {
      var n := |later| - 1;
      FullStaysFull(ops, later[..n], ip);
      assert Init(all) == ops + later[..n];
    }
  }
}
