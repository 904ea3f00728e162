/**
 The cache of redirect chains: each domain has a bounded list of addresses, stored as a map
 from levels to addresses together with the highest level.
 */
module RedirectChains {
  import opened Basics

  const MAX_CHAIN := 32

  datatype Chain = Chain(levels: map<int, string>, head: int, lastUsed: int)

  /** Levels are exactly 1..head, the bound is kept, and no address occurs twice. */
  ghost predicate Sound(c: Chain) {
    && 1 <= c.head <= MAX_CHAIN
    && (forall i :: i in c.levels <==> 1 <= i <= c.head)
    && forall i, j :: i in c.levels && j in c.levels && i != j ==> c.levels[i] != c.levels[j]
  }

  /** The addresses from the oldest to the newest. */
  ghost function Entries(c: Chain): (s: seq<string>)
    requires Sound(c)
    ensures |s| == c.head
    ensures forall i :: 0 <= i < |s| ==> s[i] == c.levels[i + 1]
  {
    seq(c.head, i requires 0 <= i < c.head => c.levels[i + 1])
  }

  /** A new address at the end; a full chain gives up its oldest entry and nothing else. */
  function Appended(s: seq<string>, ip: string): seq<string> {
    (if |s| < MAX_CHAIN then s else s[1..]) + [ip]
  }

  /**
   The effect of adding `ip` to a chain that does not have it, when the address's own chain has
   the entries `next`: the address is appended, then entries of `next` that are new, in some
   order, all of them if they fit.
   */
  ghost predicate Extended(old_: seq<string>, ip: string, next: seq<string>, new_: seq<string>) {
    var base := Appended(old_, ip);
    && base <= new_ && |new_| <= MAX_CHAIN && Distinct(new_)
    && (forall x :: x in new_[|base|..] ==> x in next && x !in old_ && x != ip)
    && (|new_| < MAX_CHAIN ==> forall x :: x in next ==> x in new_)
  }

  /** A chain holds 1 to 32 addresses; the 33rd pushes out the oldest, and below 32 no address of the merged chain is left out. */
  lemma ChainBounds(c: Chain, ip: string, next: seq<string>, new_: seq<string>)
    requires Sound(c)
    ensures
      var s := Entries(c);
      && 1 <= |s| <= 32 && Distinct(s)
      && Appended(s, ip) == (if |s| == 32 then s[1..] + [ip] else s + [ip])
      && (Extended(s, ip, next, new_) ==>
            |new_| <= 32 && Appended(s, ip) <= new_ && (|new_| < 32 ==> forall x :: x in next ==> x in new_))
  {
  }

  function Values(levels: map<int, string>): set<string> {
    set i | i in levels :: levels[i]
  }

  /** The values of a chain, as the set that the code builds to find duplicates. */
  function Addresses(c: Chain): set<string> {
    Values(c.levels)
  }

  lemma InAddresses(c: Chain, x: string)
    requires Sound(c)
    ensures x in Addresses(c) <==> x in Entries(c)
  {
    if x in Addresses(c) {
      var i :| i in c.levels && c.levels[i] == x;
      assert Entries(c)[i - 1] == x;
    }
  }

  lemma AppendedSeen(c: Chain, ip: string, r: Chain)
    requires Sound(c) && Sound(r) && Entries(r) == Appended(Entries(c), ip)
    ensures forall k :: k in r.levels ==> r.levels[k] in Addresses(c) + {ip}
  {
    forall k | k in r.levels ensures r.levels[k] in Addresses(c) + {ip} {
      assert r.levels[k] == Entries(r)[k - 1];
      if r.levels[k] != ip {
        InAddresses(c, r.levels[k]);
      }
    }
  }

  lemma AppendedExtends(c: Chain, ip: string, r: Chain)
    requires Sound(c) && Sound(r) && Entries(r) == Appended(Entries(c), ip)
    ensures Extended(Entries(c), ip, [], Entries(r))
  {
  }

  /** Append and merge together have the specified effect; a domain that redirects to itself merges nothing new. */
  lemma MergedExtends(c: Chain, ip: string, appended: Chain, next: Chain, visited: map<int, string>, r: Chain)
    requires Sound(c) && Sound(appended) && Sound(next) && Sound(r)
    requires Entries(appended) == Appended(Entries(c), ip)
    requires visited == next.levels || (visited == appended.levels && Entries(next) == Entries(c))
    requires Entries(appended) <= Entries(r)
    requires forall x :: x in Entries(r)[appended.head..] ==> x in Values(visited) && x !in Addresses(c) + {ip}
    requires r.head < MAX_CHAIN ==> forall k :: k in visited ==> visited[k] in Addresses(c) + {ip} || visited[k] in Entries(r)
    ensures Extended(Entries(c), ip, Entries(next), Entries(r))
  {
    forall x | x in Entries(r)[appended.head..] ensures x in Entries(next) && x !in Entries(c) && x != ip {
      InAddresses(c, x);
      var k := LevelOf(visited, x);
      if visited == next.levels {
        assert Entries(next)[k - 1] == x;
      } else {
        AppendedSeen(c, ip, appended);
        assert false;
      }
    }
    if r.head < MAX_CHAIN {
      forall x | x in Entries(next) ensures x in Entries(r) {
        var i :| 0 <= i < |Entries(next)| && Entries(next)[i] == x;
        if visited == next.levels {
          assert visited[i + 1] == x;
          InAddresses(c, x);
        } else {
          assert x in Entries(c);
        }
        if x in Entries(c) || x == ip {
          assert x in Entries(appended);
        }
      }
    }
  }

  class RedirectCache {
    var mapping: map<string, Chain>

    ghost predicate Valid()
      reads this
    {
      forall d :: d in mapping ==> Sound(mapping[d])
    }

    constructor ()
      ensures Valid() && mapping == map[]
    {
      mapping := map[];
    }

    /** AddRedirectIP, for every order in which the merge may visit the other chain's entries. */
    method AddRedirectIP(domain: string, ip: string, now: int)
      requires Valid()
      modifies this
      ensures Valid()
      ensures forall d :: d != domain ==> (d in mapping <==> d in old(mapping)) && (d in mapping ==> mapping[d] == old(mapping[d]))
      ensures domain == "" || ip == "" ==> mapping == old(mapping)
      ensures domain != "" && ip != "" ==> domain in mapping && mapping[domain].lastUsed == now
      ensures domain != "" && ip != "" && domain !in old(mapping) ==> Entries(mapping[domain]) == [ip]
      ensures domain != "" && ip != "" && domain in old(mapping) && ip in Entries(old(mapping[domain])) ==>
        Entries(mapping[domain]) == Entries(old(mapping[domain]))
      ensures domain != "" && ip != "" && domain in old(mapping) && ip !in Entries(old(mapping[domain])) ==>
        Extended(Entries(old(mapping[domain])), ip,
                 if ip in old(mapping) then Entries(old(mapping[ip])) else [],
                 Entries(mapping[domain]))
    {
      if domain == "" || ip == "" {
        return;
      }
      if domain !in mapping {
        mapping := mapping[domain := Chain(map[1 := ip], 1, now)];
        return;
      }
      var chainData := mapping[domain].(lastUsed := now);
      ghost var before := mapping[domain];
      mapping := mapping[domain := chainData];
      var seen := Addresses(chainData);
      InAddresses(chainData, ip);
      if ip in seen {
        return;
      }
      var chain := AppendLevel(chainData, ip);
      seen := seen + {ip};
      mapping := mapping[domain := chain];
      AppendedSeen(chainData, ip, chain);
      if ip in mapping {
        ghost var next := if ip == domain then before else mapping[ip];
        var merged := MergeChain(chain, mapping[ip].levels, seen);
        MergedExtends(chainData, ip, chain, next, mapping[ip].levels, merged);
        mapping := mapping[domain := merged];
      } else {
        AppendedExtends(chainData, ip, chain);
      }
    }

    /** The cleaner: chains unused for longer than maxAge are deleted. */
    method Clean(now: int, maxAge: int)
      requires Valid()
      modifies this
      ensures Valid()
      ensures forall d :: d in mapping <==> d in old(mapping) && now - old(mapping)[d].lastUsed <= maxAge
      ensures forall d :: d in mapping ==> mapping[d] == old(mapping)[d]
    {
      hide Sound;
      var keys := mapping.Keys;
      ghost var was := mapping;
      while keys != {}
        invariant keys <= was.Keys && keys <= mapping.Keys <= was.Keys
        invariant forall d :: d in was && d !in keys ==> (d in mapping <==> now - was[d].lastUsed <= maxAge)
        invariant forall d :: d in mapping ==> mapping[d] == was[d]
        decreases |keys|
      {
        SomeKey(keys);
        var d :| d in keys;
        keys := keys - {d};
        if now - mapping[d].lastUsed > maxAge {
          mapping := mapping - {d};
        }
      }
    }
  }

  lemma LevelsDiffer(c: Chain, ip: string)
    requires Sound(c) && ip !in Entries(c)
    ensures forall k :: 1 <= k <= c.head ==> c.levels[k] != ip
  {
    forall k | 1 <= k <= c.head ensures c.levels[k] != ip {
      assert Entries(c)[k - 1] == c.levels[k];
    }
  }

  /** The append step, with the compaction loop of a full chain. */
  method AppendLevel(c: Chain, ip: string) returns (r: Chain)
    requires Sound(c) && ip !in Entries(c)
    ensures Sound(r) && r.lastUsed == c.lastUsed && Entries(r) == Appended(Entries(c), ip)
  {
    var chain := c.levels;
    var newLevel := c.head + 1;
    if newLevel > MAX_CHAIN {
      var compacted: map<int, string> := map[];
      var lvl := 1;
      var i := c.head - MAX_CHAIN + 2;
      while i <= c.head
        invariant 2 <= i <= c.head + 1 && lvl == i - 1
        invariant forall k :: k in compacted <==> 1 <= k < lvl
        invariant forall k :: 1 <= k < lvl ==> compacted[k] == chain[k + 1]
      {
        if i in chain {
          compacted := compacted[lvl := chain[i]];
          lvl := lvl + 1;
        }
        i := i + 1;
      }
      chain := compacted;
      newLevel := lvl;
    }
    r := Chain(chain[newLevel := ip], newLevel, c.lastUsed);
    LevelsDiffer(c, ip);
    assert Sound(r);
    assert |Entries(r)| == |Appended(Entries(c), ip)|;
  }

  lemma SomeKey(keys: set<string>)
    requires keys != {}
    ensures exists k :: k in keys
  {
  }

  lemma SomeLevel(levels: set<int>)
    requires levels != {}
    ensures exists k :: k in levels
  {
    assert (forall k :: k !in levels) ==> levels == {};
  }

  lemma LevelOf(levels: map<int, string>, x: string) returns (k: int)
    requires x in Values(levels)
    ensures k in levels && levels[k] == x
  {
    k :| k in levels && levels[k] == x;
  }

  /** The merge loop: visits the levels of the other chain in any order. */
  method MergeChain(c: Chain, next: map<int, string>, seen0: set<string>) returns (r: Chain)
    requires Sound(c) && forall k :: k in c.levels ==> c.levels[k] in seen0
    ensures Sound(r) && r.lastUsed == c.lastUsed && Entries(c) <= Entries(r)
    ensures forall x :: x in Entries(r)[c.head..] ==> x in Values(next) && x !in seen0
    ensures r.head < MAX_CHAIN ==> forall k :: k in next ==> next[k] in seen0 || next[k] in Entries(r)
  {
    r := c;
    var seen := seen0;
    var todo := next.Keys;
    while todo != {} && r.head < MAX_CHAIN
      invariant todo <= next.Keys && seen0 <= seen
      invariant Sound(r) && r.lastUsed == c.lastUsed && c.head <= r.head
      invariant forall k :: 1 <= k <= c.head ==> r.levels[k] == c.levels[k]
      invariant forall k :: c.head < k <= r.head ==> r.levels[k] in Values(next) && r.levels[k] !in seen0
      invariant forall k :: k in r.levels ==> r.levels[k] in seen
      invariant forall x :: x in seen ==> x in seen0 || x in Entries(r)
      invariant forall k :: k in next && k !in todo ==> next[k] in seen
      decreases |todo|
    {
      SomeLevel(todo);
      var k :| k in todo;
      todo := todo - {k};
      var ip := next[k];
      if ip !in seen {
        ghost var before := r;
        r := Chain(r.levels[r.head + 1 := ip], r.head + 1, r.lastUsed);
        seen := seen + {ip};
        assert Entries(r) == Entries(before) + [ip];
      }
    }
  }
}
