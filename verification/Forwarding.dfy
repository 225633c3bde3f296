/**
  Which address an access-log line is attributed to: the peer, or, when the peer is a
  trusted proxy, the rightmost hop of the forwarding header that is not one.
 */
module Forwarding {
  import opened MailLog
  import opened TextList

  /** Addresses in canonical text form, networks in CIDR notation. */
  type Ip = string
  type Net = string

  /** Trimming and parsing an address, and network membership, are given functions. */
  datatype Config = Config(
    parse: string -> Option<Ip>,
    contains: (Net, Ip) -> bool,
    trusted: seq<Net>)

  predicate IsTrusted(cfg: Config, ip: Ip) {
    exists i :: 0 <= i < |cfg.trusted| && cfg.contains(cfg.trusted[i], ip)
  }

  /** A hop that parses to an address outside the trusted networks. */
  predicate Eligible(cfg: Config, hop: string) {
    cfg.parse(hop).Some? && !IsTrusted(cfg, cfg.parse(hop).value)
  }

  /** `ip` comes from hop `k`, which is eligible, and no hop to its right is. */
  predicate Rightmost(cfg: Config, hops: seq<string>, k: nat, ip: Ip) {
    && k < |hops| && Eligible(cfg, hops[k]) && cfg.parse(hops[k]) == Some(ip)
    && forall j :: k < j < |hops| ==> !Eligible(cfg, hops[j])
  }

  method IsTrustedProxy(cfg: Config, ip: Ip) returns (trusted: bool)
    ensures trusted == IsTrusted(cfg, ip)
    ensures trusted <==> exists i :: 0 <= i < |cfg.trusted| && cfg.contains(cfg.trusted[i], ip)
  {
    var i := 0;
    while i < |cfg.trusted|
      invariant 0 <= i <= |cfg.trusted|
      invariant forall j :: 0 <= j < i ==> !cfg.contains(cfg.trusted[j], ip)
    {
      if cfg.contains(cfg.trusted[i], ip) {
        return true;
      }
      i := i + 1;
    }
    return false;
  }

  /** The backward scan over the comma-separated hops. */
  method ForwardedClientIp(cfg: Config, value: string) returns (client: Option<Ip>)
    ensures client == Select(cfg, Split(value, ','))
    ensures client.None? ==> forall j :: 0 <= j < |Split(value, ',')| ==> !Eligible(cfg, Split(value, ',')[j])
    ensures client.Some? ==> exists k :: Rightmost(cfg, Split(value, ','), k, client.value)
  {
    var parts := Split(value, ',');
    var index := |parts| - 1;
    assert parts[..index + 1] == parts;
    while index >= 0
      invariant -1 <= index < |parts|
      invariant forall j :: index < j < |parts| ==> !Eligible(cfg, parts[j])
      invariant Select(cfg, parts) == Select(cfg, parts[..index + 1])
    {
      var ip := cfg.parse(parts[index]);
      if ip.Some? {
        var trusted := IsTrustedProxy(cfg, ip.value);
        if !trusted {
          assert Rightmost(cfg, parts, index, ip.value);
          return ip;
        }
      }
      assert parts[..index + 1][..index] == parts[..index];
      index := index - 1;
    }
    return None;
  }

  /** The rightmost eligible hop, as a function of the hops. */
  function Select(cfg: Config, hops: seq<string>): Option<Ip> {
    if hops == [] then None
    else if Eligible(cfg, hops[|hops| - 1]) then cfg.parse(hops[|hops| - 1])
    else Select(cfg, hops[..|hops| - 1])
  }

  lemma {:induction false} SelectConcat(cfg: Config, a: seq<string>, b: seq<string>)
    ensures Select(cfg, a + b) == if Select(cfg, b).Some? then Select(cfg, b) else Select(cfg, a)
  {
    if b == [] {
      assert a + b == a;
    } else {
      assert (a + b)[..|a + b| - 1] == a + b[..|b| - 1];
      SelectConcat(cfg, a, b[..|b| - 1]);
    }
  }

  /**
    Once a header yields an address, whatever a client writes in front of it, followed by a
    comma, changes nothing; and a header that yields none passes the choice on to that text.
   */
  lemma PrependedTextIsIgnored(cfg: Config, text: string, value: string)
    ensures var chosen := Select(cfg, Split(value, ','));
      Select(cfg, Split(text + "," + value, ',')) == if chosen.Some? then chosen else Select(cfg, Split(text, ','))
  {
    assert text + "," + value == text + [','] + value;
    SplitConcat(text, value, ',');
    SelectConcat(cfg, Split(text, ','), Split(value, ','));
  }

  /** The address `ip` lies in none of the trusted networks. */
  predicate Outside(cfg: Config, ip: Ip) {
    forall i :: 0 <= i < |cfg.trusted| ==> !cfg.contains(cfg.trusted[i], ip)
  }

  /** `ip` is the address of a hop outside the trusted networks to the right of which there is no such hop. */
  predicate LastOutside(cfg: Config, hops: seq<string>, k: nat, ip: Ip) {
    && k < |hops| && cfg.parse(hops[k]) == Some(ip) && Outside(cfg, ip)
    && forall j :: k < j < |hops| && cfg.parse(hops[j]).Some? ==> !Outside(cfg, cfg.parse(hops[j]).value)
  }

  /** The header names a client: some hop parses to an address outside the trusted networks. */
  predicate NamesClient(cfg: Config, hops: seq<string>) {
    exists j :: 0 <= j < |hops| && cfg.parse(hops[j]).Some? && Outside(cfg, cfg.parse(hops[j]).value)
  }

  lemma OutsideIff(cfg: Config, ip: Ip)
    ensures Outside(cfg, ip) <==> !IsTrusted(cfg, ip)
  {
  }

  /** What the scan selects is the last hop outside, and it selects one exactly when there is one. */
  lemma {:induction false} SelectIsLastOutside(cfg: Config, hops: seq<string>)
    ensures Select(cfg, hops).Some? <==> NamesClient(cfg, hops)
    ensures forall k: nat, ip :: LastOutside(cfg, hops, k, ip) ==> Select(cfg, hops) == Some(ip)
  {
    if hops != [] {
      var n := |hops| - 1;
      var init := hops[..n];
      SelectIsLastOutside(cfg, init);
      if cfg.parse(hops[n]).Some? {
        OutsideIff(cfg, cfg.parse(hops[n]).value);
      }
      if NamesClient(cfg, init) {
        var j :| 0 <= j < |init| && cfg.parse(init[j]).Some? && Outside(cfg, cfg.parse(init[j]).value);
        assert hops[j] == init[j];
      }
      if !Eligible(cfg, hops[n]) && NamesClient(cfg, hops) {
        var j :| 0 <= j < |hops| && cfg.parse(hops[j]).Some? && Outside(cfg, cfg.parse(hops[j]).value);
        assert init[j] == hops[j];
      }
      forall k: nat, ip | LastOutside(cfg, hops, k, ip) ensures Select(cfg, hops) == Some(ip) {
        if k < n {
          assert !Eligible(cfg, hops[n]);
          assert forall j :: 0 <= j < n ==> init[j] == hops[j];
          assert LastOutside(cfg, init, k, ip);
        }
      }
    }
  }

  /** The attributed address; no address at all when the peer does not parse. */
  method ClientAddress(cfg: Config, remote: string, forwardedFor: string) returns (client: Option<Ip>)
    ensures client == Attributed(cfg, remote, forwardedFor)
    ensures client.None? <==> cfg.parse(remote).None?
    ensures cfg.parse(remote).Some? && !Outside(cfg, cfg.parse(remote).value) ==>
      forall k: nat, ip :: LastOutside(cfg, Split(forwardedFor, ','), k, ip) ==> client == Some(ip)
    ensures !NamesClient(cfg, Split(forwardedFor, ',')) ==> client == cfg.parse(remote)
    ensures cfg.parse(remote).Some? && Outside(cfg, cfg.parse(remote).value) ==> client == cfg.parse(remote)
  {
    SelectIsLastOutside(cfg, Split(forwardedFor, ','));
    var peer := cfg.parse(remote);
    if peer.None? {
      return None;
    }
    client := peer;
    var trusted := IsTrustedProxy(cfg, peer.value);
    if trusted {
      var forwarded := ForwardedClientIp(cfg, forwardedFor);
      if forwarded.Some? {
        client := forwarded;
      }
    }
  }

  function Attributed(cfg: Config, remote: string, forwardedFor: string): Option<Ip> {
    var peer := cfg.parse(remote);
    if peer.Some? && IsTrusted(cfg, peer.value) && Select(cfg, Split(forwardedFor, ',')).Some?
    then Select(cfg, Split(forwardedFor, ','))
    else peer
  }

  /** With an untrusted peer the header has no effect whatsoever. */
  lemma UntrustedPeerDecides(cfg: Config, remote: string, a: string, b: string)
    requires cfg.parse(remote).Some? && !IsTrusted(cfg, cfg.parse(remote).value)
    ensures Attributed(cfg, remote, a) == Attributed(cfg, remote, b) == cfg.parse(remote)
  {
  }

  /**
    A client behind a trusted proxy that appends the address it saw cannot choose what it is
    taken for: with any text before the appended hop, an eligible hop is the one attributed.
   */
  lemma AppendedHopWins(cfg: Config, remote: string, text: string, hop: string)
    requires cfg.parse(remote).Some? && IsTrusted(cfg, cfg.parse(remote).value)
    requires ',' !in hop && Eligible(cfg, hop)
    ensures Attributed(cfg, remote, text + "," + hop) == cfg.parse(hop)
  {
    PrependedTextIsIgnored(cfg, text, hop);
    SplitFree(hop, ',');
  }
}
