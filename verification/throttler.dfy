/**
 * `UserThrottlerGuard.getTracker`: the key the rate limiter counts requests
 * under, the authenticated user's id when there is one, else the client's
 * address.
 */
module Throttler {
  import opened Wrappers

  /** The `x-forwarded-for` header as Node presents it: absent, one string, or repeated values. */
  datatype Forwarded = Absent | Header(text: string) | Repeated(values: seq<string>)

  /** The parts of the request `getTracker` reads. */
  datatype TrackerRequest = TrackerRequest(userId: Option<string>, forwarded: Forwarded, ip: Option<string>)

  const UserPrefix: string := "user:"
  const IpPrefix: string := "ip:"

  /** `s.split(',')[0]`: the text before the first comma, or all of it. */
  function BeforeComma(s: string): (r: string)
    ensures |r| <= |s| && r == s[..|r|]
    ensures forall i :: 0 <= i < |r| ==> r[i] != ','
    ensures |r| < |s| ==> s[|r|] == ','
  {
    if |s| == 0 || s[0] == ',' then "" else [s[0]] + BeforeComma(s[1..])
  }

  /** `Array.isArray(xff) ? xff[0] : xff?.split?.(',')?.[0]`. */
  function ForwardedIp(xff: Forwarded): Option<string> {
    match xff
    case Absent => None
    case Header(text) => Some(BeforeComma(text))
    case Repeated(values) => if |values| > 0 then Some(values[0]) else None
  }

  /** `getTracker(req)`. */
  function GetTracker(req: TrackerRequest): (r: string)
    ensures Truthy(req.userId) ==> r == UserPrefix + req.userId.value
    ensures !Truthy(req.userId) && req.forwarded.Header? ==> r == IpPrefix + BeforeComma(req.forwarded.text)
    ensures !Truthy(req.userId) && req.forwarded.Repeated? && |req.forwarded.values| > 0
      ==> r == IpPrefix + req.forwarded.values[0]
    ensures !Truthy(req.userId) && ForwardedIp(req.forwarded).None?
      ==> r == IpPrefix + (if req.ip.Some? then req.ip.value else "unknown")
  {
    if Truthy(req.userId) then UserPrefix + req.userId.value
    else
      var ip := if ForwardedIp(req.forwarded).Some? then ForwardedIp(req.forwarded) else req.ip;
      IpPrefix + ip.GetOr("unknown")
  }

  /** Every key is a user key or an address key. */
  lemma TrackerPrefix(req: TrackerRequest)
    ensures var k := GetTracker(req);
      (|k| >= 5 && k[..5] == UserPrefix) || (|k| >= 3 && k[..3] == IpPrefix)
  {
  }

  /**
   * Distinct users are counted apart, and no user is ever counted together
   * with an address, whatever the headers say.
   */
  lemma TrackerSeparatesClients(a: TrackerRequest, b: TrackerRequest)
    requires Truthy(a.userId)
    ensures Truthy(b.userId) ==> (GetTracker(a) == GetTracker(b) <==> a.userId == b.userId)
    ensures !Truthy(b.userId) ==> GetTracker(a) != GetTracker(b)
  {
    var ka := GetTracker(a);
    var kb := GetTracker(b);
    if Truthy(b.userId) {
      if ka == kb {
        assert a.userId.value == ka[5..] && b.userId.value == kb[5..];
      }
    } else {
      assert ka[0] == 'u' && kb[0] == 'i';
    }
  }

  /**
   * With a proxy chain "client,proxy,..." the key is the client hop exactly as
   * written (surrounding spaces are not trimmed), and `req.ip` is ignored.
   */
  lemma FirstForwardedHop(req: TrackerRequest, client: string, rest: string)
    requires !Truthy(req.userId) && req.forwarded == Header(client + "," + rest)
    requires forall i :: 0 <= i < |client| ==> client[i] != ','
    ensures GetTracker(req) == IpPrefix + client
  {
    var h := client + "," + rest;
    assert h[|client|] == ',' && h[..|client|] == client;
    BeforeCommaIsPrefix(h, |client|);
  }

  /** `BeforeComma` stops exactly at the first comma. */
  lemma {:induction false} BeforeCommaIsPrefix(s: string, n: nat)
    requires n < |s| && s[n] == ',' && forall i :: 0 <= i < n ==> s[i] != ','
    ensures BeforeComma(s) == s[..n]
    decreases n
  {
    if n > 0 {
      BeforeCommaIsPrefix(s[1..], n - 1);
      assert s[..n] == [s[0]] + s[1..][..n - 1];
    }
  }

  /** An empty header is a present value (`??` skips only null), so the key is the bare prefix. */
  lemma EmptyHeaderKeepsEmptyAddress(req: TrackerRequest)
    requires !Truthy(req.userId) && req.forwarded == Header("")
    ensures GetTracker(req) == IpPrefix
  {
  }

  /** Repeated headers with no values fall back to `req.ip`, then to "unknown". */
  lemma EmptyRepeatedFallsBack(req: TrackerRequest)
    requires !Truthy(req.userId) && req.forwarded == Repeated([])
    ensures GetTracker(req) == IpPrefix + req.ip.GetOr("unknown")
  {
  }
}
