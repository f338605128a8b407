/** The string key under which the parser files a port, and when it identifies the port. */
module PortKey {
  import opened Domain
  import Text

  const BAR: char := '|'

  function KeyOf(nodeGUID: string, portGUID: string, portNum: int): string {
    nodeGUID + [BAR] + portGUID + [BAR] + Text.Itoa(portNum)
  }

  function PortKeyOf(p: ParsedPort): string {
    KeyOf(p.nodeGUID, p.portGUID, p.portNum)
  }

  predicate SamePort(p: ParsedPort, q: ParsedPort) {
    p.nodeGUID == q.nodeGUID && p.portGUID == q.portGUID && p.portNum == q.portNum
  }

  /** `a` followed by a bar is not the beginning of `b`. */
  predicate Apart(a: string, b: string) {
    !(a + [BAR] <= b)
  }

  /** No GUID of the set, followed by a bar, is the beginning of another. */
  ghost predicate PrefixFree(guids: set<string>) {
    forall a, b | a in guids && b in guids :: Apart(a, b)
  }

  lemma BarInside(a: string, b: string)
    requires a + [BAR] <= b
    ensures BAR in b
  {
    assert b[|a|] == BAR;
  }

  lemma NoBarMeansPrefixFree(guids: set<string>)
    requires forall g | g in guids :: BAR !in g
    ensures PrefixFree(guids)
  {
    forall a, b | a in guids && b in guids ensures Apart(a, b) {
      if a + [BAR] <= b {
        BarInside(a, b);
      }
    }
  }

  lemma NoBarAfterLast(p: string, m: int, k: nat)
    requires |p| < k < |p + [BAR] + Text.Itoa(m)|
    ensures (p + [BAR] + Text.Itoa(m))[k] != BAR
  {
    assert (p + [BAR] + Text.Itoa(m))[k] == Text.Itoa(m)[k - |p| - 1];
    assert Text.Itoa(m)[k - |p| - 1] in Text.Itoa(m);
  }

  /** The text after the node GUID splits at its last bar, because a number has none. */
  lemma TailDetermines(p: string, m: int, q: string, n: int)
    requires p + [BAR] + Text.Itoa(m) == q + [BAR] + Text.Itoa(n)
    ensures p == q && m == n
  {
    var s, t := p + [BAR] + Text.Itoa(m), q + [BAR] + Text.Itoa(n);
    forall k | |p| < k < |s| ensures s[k] != BAR { NoBarAfterLast(p, m, k); }
    forall k | |q| < k < |t| ensures t[k] != BAR { NoBarAfterLast(q, n, k); }
    assert s[|p|] == BAR && t[|q|] == BAR;
    assert p == s[..|p|] == q;
    assert Text.Itoa(m) == s[|p| + 1..] == Text.Itoa(n);
    Text.ItoaInjective(m, n);
  }

  lemma ShorterHeadIsInside(a: string, r: string, b: string, t: string)
    requires a + [BAR] + r == b + [BAR] + t && |a| < |b|
    ensures a + [BAR] <= b
  {
    var k := a + [BAR] + r;
    assert b[..|a| + 1] == k[..|a| + 1] == a + [BAR];
  }

  lemma HeadDetermines(a: string, r: string, b: string, t: string)
    requires Apart(a, b) && Apart(b, a)
    requires a + [BAR] + r == b + [BAR] + t
    ensures a == b && r == t
  {
    var k := a + [BAR] + r;
    if |a| < |b| {
      ShorterHeadIsInside(a, r, b, t);
    } else if |b| < |a| {
      ShorterHeadIsInside(b, t, a, r);
    }
    assert a == k[..|a|] == b;
    assert r == k[|a| + 1..] == t;
  }

  lemma KeyIsInjective(p: ParsedPort, q: ParsedPort)
    requires Apart(p.nodeGUID, q.nodeGUID) && Apart(q.nodeGUID, p.nodeGUID)
    requires PortKeyOf(p) == PortKeyOf(q)
    ensures SamePort(p, q)
  {
    var restP, restQ := p.portGUID + [BAR] + Text.Itoa(p.portNum), q.portGUID + [BAR] + Text.Itoa(q.portNum);
    assert PortKeyOf(p) == p.nodeGUID + [BAR] + restP && PortKeyOf(q) == q.nodeGUID + [BAR] + restQ;
    HeadDetermines(p.nodeGUID, restP, q.nodeGUID, restQ);
    TailDetermines(p.portGUID, p.portNum, q.portGUID, q.portNum);
  }

  /** Keys identify ports, whatever their port GUIDs and numbers, as long as node GUIDs come from the set. */
  ghost predicate KeysIdentifyPorts(guids: set<string>) {
    forall p: ParsedPort, q: ParsedPort | p.nodeGUID in guids && q.nodeGUID in guids && PortKeyOf(p) == PortKeyOf(q) ::
      SamePort(p, q)
  }

  const BLANK := ParsedPort("", "", 0, 0, 0, 0, 0, 0, 0, "")

  lemma CollidingPorts(a: string, b: string) returns (p: ParsedPort, q: ParsedPort)
    requires !Apart(a, b)
    ensures p.nodeGUID == a && q.nodeGUID == b && PortKeyOf(p) == PortKeyOf(q) && !SamePort(p, q)
  {
    var rest := b[|a| + 1..];
    assert b == a + [BAR] + rest;
    p := BLANK.(nodeGUID := a, portGUID := rest + [BAR] + "c", portNum := 1);
    q := BLANK.(nodeGUID := b, portGUID := "c", portNum := 1);
    assert PortKeyOf(p) == a + [BAR] + rest + [BAR] + "c" + [BAR] + Text.Itoa(1) == PortKeyOf(q);
  }

  /** The key identifies ports exactly when the node GUIDs are prefix-free. */
  lemma KeysIdentifyPortsIff(guids: set<string>)
    ensures KeysIdentifyPorts(guids) <==> PrefixFree(guids)
  {
    if PrefixFree(guids) {
      forall p: ParsedPort, q: ParsedPort | p.nodeGUID in guids && q.nodeGUID in guids && PortKeyOf(p) == PortKeyOf(q)
        ensures SamePort(p, q)
      {
        KeyIsInjective(p, q);
      }
    } else {
      var a, b :| a in guids && b in guids && !Apart(a, b);
      var p, q := CollidingPorts(a, b);
    }
  }
}
