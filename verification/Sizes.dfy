/** The sizes of requests, as the C types compute them. */
module Sizes {
  import opened Bytes
  import opened Layout

  /** An unsigned long has 32 bits. */
  const WORD: nat := 0x1_0000_0000
  type Word = n: nat | n < 0x1_0000_0000

  /** The largest request the address arithmetic leaves room for: ULONG_MAX less the slack of 8. */
  const ULONG_LIMIT: nat := 0xFFFF_FFFF - 8

  /** What the program runs on: whether the k-th call of the allocator returns memory, and the sizes that the
      compiler gives the structures. */
  datatype Host = Host(answers: nat -> bool, nodeSize: Word, pointerSize: Word, entrySize: Word)

  /** The caller's settings. */
  datatype Options = Options(maxMemory: Word, comments: bool, valueExtra: nat, host: Host)

  /** The settings of json_parse: no limit and no comments. */
  function Bare(host: Host): Options {
    Options(0, false, 0, host)
  }

  /** A value converted to unsigned long. */
  function ToWord(n: int): Word {
    n % WORD
  }

  /** A value converted to int. */
  function ToInt(n: int): CInt {
    if n % WORD < 0x8000_0000 then n % WORD else n % WORD - WORD
  }

  /** A request: the size that json_alloc is given, and whether a block of that size holds what is written
      to it. */
  datatype Ask = Ask(size: Word, room: bool)

  /** The bytes of one node. */
  function NodeBytes(o: Options): nat {
    o.host.nodeSize + o.valueExtra
  }

  function NodeAsk(o: Options): Ask {
    Ask(ToWord(NodeBytes(o)), NodeBytes(o) <= ToWord(NodeBytes(o)))
  }

  /** values_size: the bytes of the entries of an object, as an int. */
  function ValuesSize(o: Options, n: Node): CInt {
    ToInt(n.length * o.host.entrySize)
  }

  /** The size requested for the block of a node that the first pass has counted. */
  function Request(o: Options, n: Node): Word {
    match n.kind
    case KArray => ToWord(n.length * o.host.pointerSize)
    case KObject => ToWord(ValuesSize(o, n) + n.nameBytes)
    case KString => ToWord(n.length + 1)
    case _ => 0
  }

  /** What the second pass writes lies inside a block of the requested size: the items of an array, the entries
      of an object from its start and its names from `values_size` on, a string with its NUL. */
  predicate Room(o: Options, n: Node) {
    match n.kind
    case KArray => n.length * o.host.pointerSize <= Request(o, n)
    case KObject =>
      && n.length * o.host.entrySize <= Request(o, n)
      && 0 <= ValuesSize(o, n) && ValuesSize(o, n) + n.nameBytes <= Request(o, n)
    case KString => n.length + 1 <= Request(o, n)
    case _ => true
  }

  /** What the second pass requests for a node, if anything. */
  function Charge(o: Options, n: Node): Option<Ask> {
    if n.kind == KString || ((n.kind == KArray || n.kind == KObject) && n.length > 0) then
      Some(Ask(Request(o, n), Room(o, n)))
    else None
  }

  lemma ConvertsTo(n: nat)
    ensures ToWord(n) <= n && (n <= ToWord(n) <==> n < WORD)
    ensures 0 <= ToInt(n) && n < WORD ==> ToInt(n) == n < 0x8000_0000
  {
  }

  /** Entries of `e` bytes and names of `b` bytes fit exactly when no conversion changes a value. */
  lemma EntriesFit(e: nat, b: nat)
    ensures e <= ToWord(ToInt(e) + b) && 0 <= ToInt(e) && ToInt(e) + b <= ToWord(ToInt(e) + b)
            <==> e < 0x8000_0000 && e + b < WORD
    ensures e < 0x8000_0000 && e + b < WORD ==> ToInt(e) == e && ToWord(ToInt(e) + b) == e + b
  {
    if e <= ToWord(ToInt(e) + b) && 0 <= ToInt(e) {
      ConvertsTo(e);
      ConvertsTo(e + b);
    }
  }

  /** A block has room exactly when no conversion changes a value: an array and a string when their bytes fit in
      32 bits, an object when its entries fit in 31 and all its bytes in 32.  The request is then exact. */
  lemma RoomIs(o: Options, n: Node)
    ensures Room(o, n)
            <==> match n.kind
                 case KArray => n.length * o.host.pointerSize < 0x1_0000_0000
                 case KObject =>
                   && n.length * o.host.entrySize < 0x8000_0000
                   && n.length * o.host.entrySize + n.nameBytes < 0x1_0000_0000
                 case KString => n.length + 1 < 0x1_0000_0000
                 case _ => true
    ensures Room(o, n) ==>
              Request(o, n) == match n.kind
              case KArray => n.length * o.host.pointerSize
              case KObject => n.length * o.host.entrySize + n.nameBytes
              case KString => n.length + 1
              case _ => 0
    ensures Room(o, n) && n.kind == KObject ==> ValuesSize(o, n) == n.length * o.host.entrySize
  {
    match n.kind
    case KArray => ConvertsTo(n.length * o.host.pointerSize);
    case KObject => EntriesFit(n.length * o.host.entrySize, n.nameBytes);
    case KString => ConvertsTo(n.length + 1);
    case _ =>
  }

  lemma Multiple(n: int, m: int)
    requires (m - n) % 0x1_0000_0000 == 0
    ensures m % 0x1_0000_0000 == n % 0x1_0000_0000
  {
  }

  lemma IntIs(e: nat)
    ensures -0x8000_0000 <= ToInt(e) < 0x8000_0000 && (ToInt(e) - e) % 0x1_0000_0000 == 0
  {
  }

  /** What is requested, in any case: the bytes needed, less multiples of 2^32.  The request for a node has room exactly
      when nothing is lost. */
  lemma {:induction false} AskedIs(o: Options, n: Node)
    ensures NodeAsk(o).size == (o.host.nodeSize + o.valueExtra) % 0x1_0000_0000
    ensures NodeAsk(o).room <==> o.host.nodeSize + o.valueExtra < 0x1_0000_0000
    ensures Request(o, n) == match n.kind
            case KArray => n.length * o.host.pointerSize % 0x1_0000_0000
            case KObject => (n.length * o.host.entrySize + n.nameBytes) % 0x1_0000_0000
            case KString => (n.length + 1) % 0x1_0000_0000
            case _ => 0
    ensures (ValuesSize(o, n) - n.length * o.host.entrySize) % 0x1_0000_0000 == 0
  {
    ConvertsTo(NodeBytes(o));
    var e := n.length * o.host.entrySize;
    IntIs(e);
    Multiple(e + n.nameBytes, ToInt(e) + n.nameBytes);
  }
}
