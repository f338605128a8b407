/** Vocabulary shared by the parser, the repository and the topology service. */
module Domain {
  datatype Option<+T> = None | Some(value: T)

  datatype Result<+T, +E> = Ok(value: T) | Err(error: E)

  /** A Go `int32(n)` conversion: the low 32 bits, read as a signed number. */
  function Int32(n: int): (r: int)
    ensures -0x8000_0000 <= r < 0x8000_0000
    ensures (n - r) % 0x1_0000_0000 == 0
    ensures -0x8000_0000 <= n < 0x8000_0000 ==> r == n
  {
    var low := n % 0x1_0000_0000;
    if low < 0x8000_0000 then low else low - 0x1_0000_0000
  }

  lemma SameResidueSameInt32(m: int, n: int)
    requires (m - n) % 0x1_0000_0000 == 0
    ensures Int32(m) == Int32(n)
  {
  }

  /** Converting a summand early makes no difference. */
  lemma Int32Absorbs(m: int, n: int)
    ensures Int32(Int32(m) + n) == Int32(m + n)
  {
    SameResidueSameInt32(m + n, Int32(m) + n);
  }

  lemma Int32Sums(head: int, m: int, n: int)
    requires Int32(m) == Int32(n)
    ensures Int32(Int32(head) + m) == Int32(head + n)
  {
    Int32Absorbs(head, m);
    Int32Absorbs(m, head);
    Int32Absorbs(n, head);
  }

  /** Status of a log; the last two are terminal. */
  datatype Status = Processing | Parsed | Failed

  datatype ParsedNode = ParsedNode(
    nodeGUID: string,
    nodeDesc: string,
    nodeType: int,
    nodeKind: string,
    numPorts: int,
    classVersion: int,
    baseVersion: int,
    systemImageGUID: string,
    portGUID: string,
    rawJSON: string)

  datatype ParsedInfo = ParsedInfo(
    nodeGUID: string,
    serialNumber: string,
    partNumber: string,
    revision: string,
    productName: string,
    rawJSON: string)

  datatype ParsedPort = ParsedPort(
    nodeGUID: string,
    portGUID: string,
    portNum: int,
    lid: int,
    localPortNum: int,
    portState: int,
    portPhyState: int,
    linkWidthActive: int,
    linkSpeedActive: int,
    rawJSON: string)

  datatype ParsedLog = ParsedLog(nodes: seq<ParsedNode>, ports: seq<ParsedPort>, infos: seq<ParsedInfo>)
}
