/**
 * A project's IP allowlist: an empty (or missing) list admits every address;
 * otherwise an address must be listed.
 */
module Projects {
  import opened Php

  /** `isIpAllowed` over the array-cast `ip_allowlist`. */
  predicate IsIpAllowed(allowlist: Value, ip: string) {
    !Truthy(allowlist) || InArray(Str(ip), Items(allowlist))
  }

  /** The allowlist as stored for a list of addresses. */
  function Allowlist(ips: seq<string>): (v: Value)
    ensures Items(v) == seq(|ips|, i requires 0 <= i < |ips| => Str(ips[i]))
    ensures Truthy(v) <==> |ips| > 0
  {
    List(seq(|ips|, i requires 0 <= i < |ips| => Str(ips[i])))
  }

  /** With a non-empty list, exactly the listed addresses pass. */
  lemma ListedOnly(ips: seq<string>, ip: string)
    requires |ips| > 0
    ensures IsIpAllowed(Allowlist(ips), ip) <==> ip in ips
  {
    var items := Items(Allowlist(ips));
    if ip in ips {
      var k :| 0 <= k < |ips| && ips[k] == ip;
      assert LooseEq(Str(ip), items[k]);
    }
    if IsIpAllowed(Allowlist(ips), ip) {
      var k :| 0 <= k < |items| && LooseEq(Str(ip), items[k]);
      assert ips[k] == ip;
    }
  }

  /** An empty list, or none at all, admits every address. */
  lemma EmptyAdmitsAll(ip: string)
    ensures IsIpAllowed(Null, ip) && IsIpAllowed(Allowlist([]), ip)
  {
  }

  /** Growing a non-empty list never turns an admitted address away. */
  lemma GrowingKeepsAdmitted(ips: seq<string>, more: seq<string>, ip: string)
    requires |ips| > 0
    requires IsIpAllowed(Allowlist(ips), ip)
    ensures IsIpAllowed(Allowlist(ips + more), ip)
  {
    ListedOnly(ips, ip);
    ListedOnly(ips + more, ip);
  }

  /** From the empty list, adding one address turns every other address away. */
  lemma GrowingFromEmptyRestricts()
    ensures IsIpAllowed(Allowlist([]), "10.0.0.2")
    ensures !IsIpAllowed(Allowlist([] + ["10.0.0.1"]), "10.0.0.2")
  {
    ListedOnly(["10.0.0.1"], "10.0.0.2");
    assert [] + ["10.0.0.1"] == ["10.0.0.1"];
  }

  /** Order and repetition of the addresses do not matter. */
  lemma OnlyTheSetMatters(ips: seq<string>, others: seq<string>, ip: string)
    requires forall x :: x in ips <==> x in others
    ensures IsIpAllowed(Allowlist(ips), ip) == IsIpAllowed(Allowlist(others), ip)
  {
    assert |ips| > 0 <==> |others| > 0 by {
      if |ips| > 0 {
        assert ips[0] in ips;
      }
      if |others| > 0 {
        assert others[0] in others;
      }
    }
    if |ips| > 0 {
      ListedOnly(ips, ip);
      ListedOnly(others, ip);
    }
  }
}
