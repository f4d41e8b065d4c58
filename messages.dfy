/**
 * Messages and packets (src/message). A message or a packet refers to nodes
 * through the type parameter `N`: the topology classes instantiate it with
 * their `Node` objects, the simulation engine with node indices. A missing
 * node (a null reference in the source) is `None`.
 *
 * Every packet and message has exactly one holder at a time, so the setters
 * are modelled as functions that return the updated value.
 */
module Messages {
  import opened Wrappers

  datatype Message<N> = Message(
    sourceId: int,
    destinationId: int,
    timestamp: int,
    currentNode: Option<N>,
    destinationNode: Option<N>)
  {
    /** `Message::setCurrentNode` */
    function SetCurrentNode(node: Option<N>): (m: Message<N>)
      ensures m.currentNode == node
      ensures m.sourceId == sourceId && m.destinationId == destinationId && m.timestamp == timestamp
      ensures m.destinationNode == destinationNode
    {
      this.(currentNode := node)
    }

    /** `Message::setDestinationNode` */
    function SetDestinationNode(node: Option<N>): (m: Message<N>)
      ensures m.destinationNode == node
      ensures m.sourceId == sourceId && m.destinationId == destinationId && m.timestamp == timestamp
      ensures m.currentNode == currentNode
    {
      this.(destinationNode := node)
    }
  }

  /** The constructor `Message(sourceId, destinationId, timestamp)`: no node is attached yet. */
  function NewMessage<N>(sourceId: int, destinationId: int, timestamp: int): (m: Message<N>)
    ensures m.sourceId == sourceId && m.destinationId == destinationId && m.timestamp == timestamp
    ensures m.currentNode == None && m.destinationNode == None
  {
    Message(sourceId, destinationId, timestamp, None, None)
  }

  datatype Packet<N> = Packet(
    sourceId: int,
    destinationId: int,
    injectionTime: int,
    hopCount: int,
    sourceNode: Option<N>,
    destinationNode: Option<N>,
    currentNode: Option<N>)
  {
    /** `Packet::setHopCount` */
    function SetHopCount(count: int): (p: Packet<N>)
      ensures p.hopCount == count
      ensures p == this.(hopCount := p.hopCount)
    {
      this.(hopCount := count)
    }

    /** `Packet::setSourceNode` */
    function SetSourceNode(node: Option<N>): (p: Packet<N>)
      ensures p.sourceNode == node
      ensures p == this.(sourceNode := p.sourceNode)
    {
      this.(sourceNode := node)
    }

    /** `Packet::setDestinationNode` */
    function SetDestinationNode(node: Option<N>): (p: Packet<N>)
      ensures p.destinationNode == node
      ensures p == this.(destinationNode := p.destinationNode)
    {
      this.(destinationNode := node)
    }

    /** `Packet::setCurrentNode` */
    function SetCurrentNode(node: Option<N>): (p: Packet<N>)
      ensures p.currentNode == node
      ensures p == this.(currentNode := p.currentNode)
    {
      this.(currentNode := node)
    }

    /** `Packet::toString`, e.g. `Packet[3->12, hops=2]`. */
    function ToString(): (s: string)
      ensures |s| > 16 && s[..7] == "Packet[" && s[|s| - 1] == ']'
    {
      "Packet[" + IntToString(sourceId) + "->" + IntToString(destinationId)
        + ", hops=" + IntToString(hopCount) + "]"
    }
  }

  /** The constructor `Packet(const Message&)`: ids and timestamp copied, no hops, no nodes. */
  function PacketOf<N, M>(message: Message<M>): (p: Packet<N>)
    ensures p.sourceId == message.sourceId && p.destinationId == message.destinationId
    ensures p.injectionTime == message.timestamp && p.hopCount == 0
    ensures p.sourceNode == None && p.destinationNode == None && p.currentNode == None
  {
    Packet(message.sourceId, message.destinationId, message.timestamp, 0, None, None, None)
  }

  // ---- Decimal rendering, as `std::to_string` on an int ----

  function DigitChar(d: nat): (c: char)
    requires d < 10
    ensures '0' <= c <= '9'
  {
    "0123456789"[d]
  }

  function DigitValue(c: char): nat
  {
    if '0' <= c <= '9' then (c as int - '0' as int) as nat else 0
  }

  predicate IsDigits(s: string)
  {
    forall i :: 0 <= i < |s| ==> '0' <= s[i] <= '9'
  }

  /** Decimal digits of `n`, most significant first, with no leading zero. */
  function NatToString(n: nat): (s: string)
    ensures |s| > 0 && IsDigits(s)
    ensures |s| > 1 ==> s[0] != '0'
  {
    if n < 10 then [DigitChar(n)] else NatToString(n / 10) + [DigitChar(n % 10)]
  }

  function IntToString(n: int): (s: string)
    ensures |s| > 0
    ensures n >= 0 ==> IsDigits(s)
    ensures n < 0 ==> s[0] == '-' && |s| > 1 && IsDigits(s[1..])
  {
    if n < 0 then "-" + NatToString(-n) else NatToString(n)
  }

  /** Reads a string of decimal digits back as a number. */
  function ParseDigits(s: string): nat
  {
    if |s| == 0 then 0 else 10 * ParseDigits(s[..|s| - 1]) + DigitValue(s[|s| - 1])
  }

  /** Reads an optionally negative decimal number. */
  function ParseInt(s: string): int
  {
    if |s| > 0 && s[0] == '-' then 0 - (ParseDigits(s[1..]) as int) else ParseDigits(s)
  }

  lemma {:induction false} ParseNatToString(n: nat)
    ensures ParseDigits(NatToString(n)) == n
  {
    var s := NatToString(n);
    if n < 10 {
      assert s[..|s| - 1] == [];
      assert DigitValue(DigitChar(n)) == n by {
        assert "0123456789"[n] as int == '0' as int + n;
      }
    } else {
      assert s[..|s| - 1] == NatToString(n / 10);
      assert DigitValue(DigitChar(n % 10)) == n % 10 by {
        assert "0123456789"[n % 10] as int == '0' as int + n % 10;
      }
      ParseNatToString(n / 10);
    }
  }

  /** `std::to_string` is undone by decimal parsing, so distinct ids render differently. */
  lemma {:induction false} ParseIntToString(n: int)
    ensures ParseInt(IntToString(n)) == n
  {
    if n < 0 {
      ParseNegative(-n);
      assert IntToString(n) == "-" + NatToString(-n);
    } else {
      ParseNonNegative(n);
    }
  }

  lemma ParseNonNegative(n: nat)
    ensures ParseInt(NatToString(n)) == n
  {
    var s := NatToString(n);
    assert '0' <= s[0] <= '9';
    ParseNatToString(n);
  }

  lemma ParseNegative(m: nat)
    ensures ParseInt("-" + NatToString(m)) == -(m as int)
  {
    var digits := NatToString(m);
    var s := "-" + digits;
    assert s[0] == '-' && s[1..] == digits;
    ParseNatToString(m);
  }
}
