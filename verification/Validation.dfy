/** The request checks at the RPC boundary (internal/server/validation.go). */
module Validation {
  import opened Basics
  import opened Registry

  datatype Rejection =
    | ClusterIDEmpty
    | ClusterIDTooLong
    | AffiliateIDEmpty
    | AffiliateIDTooLong
    | AffiliateDataTooBig
    | AffiliateEndpointTooBig
    | AffiliateTTLEmpty
    | TTLTooLong

  /** An AffiliateUpdate request; the TTL is a nanosecond count and may be absent. */
  datatype UpdateMessage =
    UpdateMessage(clusterId: Id, affiliateId: Id, data: Bytes, endpoints: seq<Bytes>, ttl: Option<int>)

  /** The length of the white-space character `s` starts with in UTF-8, or 0. */
  function SpaceAt(s: Bytes): (n: nat)
    ensures n <= |s|
  {
    if |s| >= 1 && (9 <= s[0] <= 13 || s[0] == 32) then 1
    else if |s| >= 2 && s[0] == 0xC2 && (s[1] == 0x85 || s[1] == 0xA0) then 2
    else if |s| >= 3 && (
      || (s[0] == 0xE1 && s[1] == 0x9A && s[2] == 0x80)
      || (s[0] == 0xE2 && s[1] == 0x80 && (0x80 <= s[2] <= 0x8A || s[2] == 0xA8 || s[2] == 0xA9 || s[2] == 0xAF))
      || (s[0] == 0xE2 && s[1] == 0x81 && s[2] == 0x9F)
      || (s[0] == 0xE3 && s[1] == 0x80 && s[2] == 0x80)
    ) then 3
    else 0
  }

  /** Nothing is left of `s` once white space is trimmed. */
  predicate Blank(s: Bytes)
    decreases |s|
  {
    s == [] || (SpaceAt(s) > 0 && Blank(s[SpaceAt(s)..]))
  }

  function CheckClusterID(id: Id): Option<Rejection> {
    if Blank(id) then Some(ClusterIDEmpty)
    else if |id| > CLUSTER_ID_MAX then Some(ClusterIDTooLong)
    else None
  }

  function CheckAffiliateID(id: Id): Option<Rejection> {
    if Blank(id) then Some(AffiliateIDEmpty)
    else if |id| > AFFILIATE_ID_MAX then Some(AffiliateIDTooLong)
    else None
  }

  function CheckData(data: Bytes): Option<Rejection> {
    if |data| > AFFILIATE_DATA_MAX then Some(AffiliateDataTooBig) else None
  }

  predicate EndpointsFit(endpoints: seq<Bytes>) {
    forall i :: 0 <= i < |endpoints| ==> |endpoints[i]| <= AFFILIATE_ENDPOINT_MAX
  }

  /** The loop over the endpoints, which stops at the first that is too big. */
  method CheckEndpoints(endpoints: seq<Bytes>) returns (r: Option<Rejection>)
    ensures r == if EndpointsFit(endpoints) then None else Some(AffiliateEndpointTooBig)
    ensures r == None <==> forall i :: 0 <= i < |endpoints| ==> |endpoints[i]| <= 32
  {
    for i := 0 to |endpoints|
      invariant EndpointsFit(endpoints[..i])
    {
      if |endpoints[i]| > AFFILIATE_ENDPOINT_MAX {
        return Some(AffiliateEndpointTooBig);
      }
    }
    assert endpoints[..|endpoints|] == endpoints;
    return None;
  }

  function CheckTTL(ttl: Option<int>): Option<Rejection> {
    if ttl.None? then Some(AffiliateTTLEmpty)
    else if ttl.value > TTL_MAX then Some(TTLTooLong)
    else None
  }

  /** The checks of AffiliateUpdate in the order they are made; the first that fails is reported. */
  function CheckUpdate(msg: UpdateMessage): Option<Rejection> {
    var c := CheckClusterID(msg.clusterId);
    if c.Some? then c else
    var a := CheckAffiliateID(msg.affiliateId);
    if a.Some? then a else
    var d := CheckData(msg.data);
    if d.Some? then d else
    if !EndpointsFit(msg.endpoints) then Some(AffiliateEndpointTooBig)
    else CheckTTL(msg.ttl)
  }

  function ToRequest(msg: UpdateMessage): UpdateRequest
    requires msg.ttl.Some?
  {
    UpdateRequest(msg.affiliateId, msg.data, msg.endpoints, msg.ttl.value)
  }

  // ----- exactly what is accepted -----

  /** Unicode's white-space code points. */
  predicate WhiteSpace(c: int) {
    9 <= c <= 13 || c == 0x20 || c == 0x85 || c == 0xA0 || c == 0x1680 || 0x2000 <= c <= 0x200A ||
    c == 0x2028 || c == 0x2029 || c == 0x202F || c == 0x205F || c == 0x3000
  }

  /** UTF-8, up to three bytes. */
  function Encode(c: int): Bytes
    requires 0 <= c < 0x10000
  {
    if c < 0x80 then [c as byte]
    else if c < 0x800 then [(0xC0 + c / 64) as byte, (0x80 + c % 64) as byte]
    else [(0xE0 + c / 4096) as byte, (0x80 + c / 64 % 64) as byte, (0x80 + c % 64) as byte]
  }

  predicate AllWhiteSpace(cs: seq<int>) {
    forall i :: 0 <= i < |cs| ==> WhiteSpace(cs[i])
  }

  function EncodeAll(cs: seq<int>): Bytes
    requires AllWhiteSpace(cs)
  {
    if cs == [] then [] else Encode(cs[0]) + EncodeAll(cs[1..])
  }

  /** The text has no character that is not white space. */
  ghost predicate OnlySpace(s: Bytes) {
    exists cs :: AllWhiteSpace(cs) && EncodeAll(cs) == s
  }

  lemma SpaceHead(s: Bytes) returns (c: int)
    requires SpaceAt(s) > 0
    ensures WhiteSpace(c) && Encode(c) == s[..SpaceAt(s)]
  {
    if SpaceAt(s) == 1 {
      c := s[0] as int;
    } else if SpaceAt(s) == 2 {
      c := s[1] as int;
    } else if s[0] == 0xE1 {
      c := 0x1680;
    } else if s[0] == 0xE3 {
      c := 0x3000;
    } else if s[1] == 0x81 {
      c := 0x205F;
    } else {
      c := 0x2000 + (s[2] as int - 0x80);
    }
  }

  lemma SpaceEncoded(c: int, rest: Bytes)
    requires WhiteSpace(c)
    ensures SpaceAt(Encode(c) + rest) == |Encode(c)| > 0
  {
    var s := Encode(c) + rest;
    assert forall i :: 0 <= i < |Encode(c)| ==> s[i] == Encode(c)[i];
  }

  lemma {:induction false} BlankEncodes(s: Bytes) returns (cs: seq<int>)
    requires Blank(s)
    ensures AllWhiteSpace(cs) && EncodeAll(cs) == s
    decreases |s|
  {
    if s == [] {
      cs := [];
    } else {
      var c := SpaceHead(s);
      var rest := BlankEncodes(s[SpaceAt(s)..]);
      cs := [c] + rest;
      assert cs[1..] == rest;
      assert s == s[..SpaceAt(s)] + s[SpaceAt(s)..];
    }
  }

  lemma {:induction false} EncodedBlank(cs: seq<int>)
    requires AllWhiteSpace(cs)
    ensures Blank(EncodeAll(cs))
    decreases |cs|
  {
    if cs != [] {
      SpaceEncoded(cs[0], EncodeAll(cs[1..]));
      EncodedBlank(cs[1..]);
      var s := EncodeAll(cs);
      assert s[|Encode(cs[0])|..] == EncodeAll(cs[1..]);
    }
  }

  /** Trimming leaves nothing exactly of texts that are nothing but white space. */
  lemma BlankExactly(s: Bytes)
    ensures Blank(s) <==> OnlySpace(s)
  {
    if Blank(s) {
      var cs := BlankEncodes(s);
    }
    if OnlySpace(s) {
      var cs :| AllWhiteSpace(cs) && EncodeAll(cs) == s;
      EncodedBlank(cs);
    }
  }

  ghost predicate LegalId(id: Id) {
    !OnlySpace(id) && |id| <= 256
  }

  ghost predicate LegalEndpoints(endpoints: seq<Bytes>) {
    forall i :: 0 <= i < |endpoints| ==> |endpoints[i]| <= 32
  }

  /** Every legal request, and no other: 256-byte ids, 2048 bytes of data, 32-byte endpoints, 30 minutes. */
  ghost predicate Acceptable(msg: UpdateMessage) {
    && LegalId(msg.clusterId) && LegalId(msg.affiliateId) && |msg.data| <= 2048 && LegalEndpoints(msg.endpoints)
    && msg.ttl.Some? && msg.ttl.value <= 1_800_000_000_000
  }

  lemma ClusterIDExactly(id: Id)
    ensures CheckClusterID(id) == None <==> LegalId(id)
    ensures CheckClusterID(id) == Some(ClusterIDEmpty) <==> OnlySpace(id)
    ensures CheckClusterID(id) == Some(ClusterIDTooLong) <==> !OnlySpace(id) && |id| > 256
  {
    BlankExactly(id);
  }

  lemma AffiliateIDExactly(id: Id)
    ensures CheckAffiliateID(id) == None <==> LegalId(id)
    ensures CheckAffiliateID(id) == Some(AffiliateIDEmpty) <==> OnlySpace(id)
    ensures CheckAffiliateID(id) == Some(AffiliateIDTooLong) <==> !OnlySpace(id) && |id| > 256
  {
    BlankExactly(id);
  }

  /** An update is accepted exactly if it is legal, and each rejection says which is the first thing wrong with it. */
  lemma UpdateExactly(msg: UpdateMessage)
    ensures CheckUpdate(msg) == None <==> Acceptable(msg)
    ensures CheckUpdate(msg) == Some(ClusterIDEmpty) <==> OnlySpace(msg.clusterId)
    ensures CheckUpdate(msg) == Some(ClusterIDTooLong) <==> !OnlySpace(msg.clusterId) && |msg.clusterId| > 256
    ensures CheckUpdate(msg) == Some(AffiliateIDEmpty) <==> LegalId(msg.clusterId) && OnlySpace(msg.affiliateId)
    ensures CheckUpdate(msg) == Some(AffiliateIDTooLong) <==>
              LegalId(msg.clusterId) && !OnlySpace(msg.affiliateId) && |msg.affiliateId| > 256
    ensures CheckUpdate(msg) == Some(AffiliateDataTooBig) <==>
              LegalId(msg.clusterId) && LegalId(msg.affiliateId) && |msg.data| > 2048
    ensures CheckUpdate(msg) == Some(AffiliateEndpointTooBig) <==>
              && LegalId(msg.clusterId) && LegalId(msg.affiliateId) && |msg.data| <= 2048
              && !LegalEndpoints(msg.endpoints)
    ensures CheckUpdate(msg) == Some(AffiliateTTLEmpty) <==>
              && LegalId(msg.clusterId) && LegalId(msg.affiliateId) && |msg.data| <= 2048
              && LegalEndpoints(msg.endpoints) && msg.ttl.None?
    ensures CheckUpdate(msg) == Some(TTLTooLong) <==>
              && LegalId(msg.clusterId) && LegalId(msg.affiliateId) && |msg.data| <= 2048
              && LegalEndpoints(msg.endpoints) && msg.ttl.Some? && msg.ttl.value > 1_800_000_000_000
  {
    ClusterIDExactly(msg.clusterId);
    AffiliateIDExactly(msg.affiliateId);
    assert EndpointsFit(msg.endpoints) <==> LegalEndpoints(msg.endpoints);
  }
}
