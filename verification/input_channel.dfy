/** The input channel of the WAMR runtime: the layout that wamr-pal/wamr_pal_main.c:47-77 documents
    and the parser of wamr_pal_main.c:258-283, 305-343, 428-448. */
module InputChannel {
  import opened Arith

  const HEADER_SIZE: nat := 12      // INPUT_HEADER_SIZE
  const MAX_NAME: nat := 128        // MAX_FUNC_NAME_LEN
  const MAX_ARGS: nat := 16         // room in argv[]

  /** A request: a module to load (none if empty), a function and its arguments. */
  datatype Message = Message(wasm: seq<Byte>, name: seq<Byte>, args: seq<U32>)

  // ----- the documented layout -----

  function Le16(v: nat): seq<Byte> {
    [v % 256, v / 256 % 256]
  }

  function Le32(v: nat): (b: seq<Byte>)
    ensures |b| == 4
  {
    Le16(v % 0x1_0000) + Le16(v / 0x1_0000)
  }

  function ArgBytes(args: seq<U32>): (b: seq<Byte>)
    ensures |b| == 4 * |args|
  {
    if args == [] then [] else ArgBytes(args[..|args| - 1]) + Le32(args[|args| - 1])
  }

  function Padding(n: nat): (b: seq<Byte>)
    ensures |b| == (4 - n % 4) % 4
    decreases (4 - n % 4) % 4
  {
    if n % 4 == 0 then [] else [0] + Padding(n + 1)
  }

  predicate ValidMessage(m: Message) {
    |m.wasm| < 0x1_0000_0000 && |m.args| < 0x1_0000 && 1 <= |m.name| <= MAX_NAME
  }

  function Header(m: Message): (b: seq<Byte>)
    ensures |b| == HEADER_SIZE
  {
    Le32(|m.wasm|) + Le32(|m.name|) + Le16(|m.args|) + Le16(0)
  }

  function Encode(m: Message): seq<Byte> {
    Header(m) + m.name + Padding(|m.name|) + ArgBytes(m.args) + m.wasm
  }

  // ----- the channel -----

  /** The channel's memory; what the sender did not write is zero. */
  function At(input: seq<Byte>, i: nat): Byte {
    if i < |input| then input[i] else 0
  }

  function Slice(input: seq<Byte>, at: nat, n: nat): (b: seq<Byte>)
    ensures |b| == n
    ensures forall k :: 0 <= k < n ==> b[k] == At(input, at + k)
  {
    if n == 0 then [] else Slice(input, at, n - 1) + [At(input, at + n - 1)]
  }

  function U16At(input: seq<Byte>, at: nat): nat {
    At(input, at) + 256 * At(input, at + 1)
  }

  function U32At(input: seq<Byte>, at: nat): U32 {
    U16At(input, at) + 0x1_0000 * U16At(input, at + 2)
  }

  function WasmSize(input: seq<Byte>): U32 {
    U32At(input, 0)
  }

  function NameLen(input: seq<Byte>): U32 {
    U32At(input, 4)
  }

  function Argc(input: seq<Byte>): nat {
    U16At(input, 8)
  }

  function Align4(v: nat): nat {
    (v + 3) / 4 * 4
  }

  function ArgsAt(input: seq<Byte>, at: nat, n: nat): (args: seq<U32>)
    ensures |args| == n
    ensures forall k :: 0 <= k < n ==> args[k] == U32At(input, at + 4 * k)
  {
    if n == 0 then [] else ArgsAt(input, at, n - 1) + [U32At(input, at + 4 * (n - 1))]
  }

  /** What the callee sees of a terminated name. */
  function CString(name: seq<Byte>): seq<Byte> {
    if name == [] || name[0] == 0 then [] else [name[0]] + CString(name[1..])
  }

  lemma {:induction false} CStringIsWhole(name: seq<Byte>)
    ensures CString(name) == name <==> 0 !in name
    ensures CString(name + [0]) == CString(name)
    ensures |CString(name)| <= |name|
  {
    if name != [] {
      CStringIsWhole(name[1..]);
      assert (name + [0])[1..] == name[1..] + [0];
      assert name == [name[0]] + name[1..];
    }
  }

  function ArgsRead(input: seq<Byte>): nat {
    if Argc(input) > MAX_ARGS then MAX_ARGS else Argc(input)
  }

  function ArgsOffset(input: seq<Byte>): nat {
    Align4(HEADER_SIZE + NameLen(input))
  }

  function WasmOffset(input: seq<Byte>): nat {
    ArgsOffset(input) + 4 * ArgsRead(input)
  }

  /** What the runtime makes of the channel's contents. */
  function Received(input: seq<Byte>): Message {
    Message(Slice(input, WasmOffset(input), WasmSize(input)),
            CString(Slice(input, HEADER_SIZE, NameLen(input))),
            ArgsAt(input, ArgsOffset(input), ArgsRead(input)))
  }

  /** Reading the name and the arguments. */
  method ReadCall(input: seq<Byte>, funcName: array<Byte>, argv: array<U32>) returns (argc: nat, offset: nat)
    requires funcName.Length == MAX_NAME + 1 && argv.Length == MAX_ARGS
    requires 1 <= NameLen(input) <= MAX_NAME
    modifies funcName, argv
    ensures argc <= MAX_ARGS && offset == WasmOffset(input)
    ensures CString(funcName[..NameLen(input) + 1]) == Received(input).name
    ensures argv[..argc] == Received(input).args
  {
    var n := NameLen(input);
    offset := HEADER_SIZE;
    for i := 0 to n
      invariant funcName[..i] == Slice(input, HEADER_SIZE, i)
    {
      funcName[i] := At(input, offset + i);
    }
    funcName[n] := 0;
    assert funcName[..n + 1] == Slice(input, HEADER_SIZE, n) + [0];
    CStringIsWhole(Slice(input, HEADER_SIZE, n));
    offset := Align4(offset + n);
    argc := Argc(input);
    if argc > MAX_ARGS {
      argc := MAX_ARGS;
    }
    for i := 0 to argc
      invariant offset == ArgsOffset(input) + 4 * i
      invariant argv[..i] == ArgsAt(input, ArgsOffset(input), i)
      invariant funcName[..n + 1] == Slice(input, HEADER_SIZE, n) + [0]
    {
      argv[i] := U32At(input, offset);
      offset := offset + 4;
    }
  }

  /** Copying the byte code. */
  method ReadWasm(input: seq<Byte>, offset: nat, size: nat) returns (buffer: array<Byte>)
    ensures fresh(buffer) && buffer[..] == Slice(input, offset, size)
  {
    buffer := new Byte[size];
    for i := 0 to size
      invariant buffer[..i] == Slice(input, offset, i)
    {
      buffer[i] := At(input, offset + i);
    }
  }

  // ----- the parser undoes the documented layout, or not -----

  lemma Le16At(input: seq<Byte>, at: nat, v: nat)
    requires v < 0x1_0000 && at + 2 <= |input| && input[at..at + 2] == Le16(v)
    ensures U16At(input, at) == v
  {
    assert input[at] == input[at..at + 2][0] && input[at + 1] == input[at..at + 2][1];
  }

  lemma Le32At(input: seq<Byte>, at: nat, v: nat)
    requires v < 0x1_0000_0000 && at + 4 <= |input| && input[at..at + 4] == Le32(v)
    ensures U32At(input, at) == v
  {
    assert input[at..at + 2] == input[at..at + 4][..2] == Le16(v % 0x1_0000);
    assert input[at + 2..at + 4] == input[at..at + 4][2..] == Le16(v / 0x1_0000);
    Le16At(input, at, v % 0x1_0000);
    Le16At(input, at + 2, v / 0x1_0000);
  }

  lemma SliceIs(input: seq<Byte>, before: seq<Byte>, part: seq<Byte>, after: seq<Byte>)
    requires input == before + part + after
    ensures input[|before|..|before| + |part|] == part
    ensures Slice(input, |before|, |part|) == part
  {
  }

  lemma {:induction false} ArgsAre(input: seq<Byte>, before: seq<Byte>, args: seq<U32>, after: seq<Byte>, n: nat)
    requires input == before + ArgBytes(args) + after && n <= |args|
    ensures ArgsAt(input, |before|, n) == args[..n]
  {
    if n > 0 {
      ArgsAre(input, before, args, after, n - 1);
      ArgInput(input, before, args, after, n - 1);
    }
  }

  lemma {:induction false} ArgInput(input: seq<Byte>, before: seq<Byte>, args: seq<U32>, after: seq<Byte>, k: nat)
    requires input == before + ArgBytes(args) + after && k < |args|
    ensures U32At(input, |before| + 4 * k) == args[k]
  {
    var at, bytes, v := |before| + 4 * k, ArgBytes(args), args[k];
    assert input[at..at + 4] == Le32(v) by {
      ArgPosition(args, k);
      SliceWithin(input, before, bytes, after, 4 * k, 4 * k + 4);
    }
    Le32At(input, at, v);
  }

  lemma SliceWithin(input: seq<Byte>, before: seq<Byte>, part: seq<Byte>, after: seq<Byte>, i: nat, j: nat)
    requires input == before + part + after && i <= j <= |part|
    ensures input[|before| + i..|before| + j] == part[i..j]
  {
  }

  lemma {:induction false} ArgPosition(args: seq<U32>, k: nat)
    requires k < |args|
    ensures ArgBytes(args)[4 * k..4 * k + 4] == Le32(args[k])
  {
    var n := |args| - 1;
    if k < n {
      ArgPosition(args[..n], k);
      assert ArgBytes(args)[4 * k..4 * k + 4] == ArgBytes(args[..n])[4 * k..4 * k + 4];
    }
  }

  lemma HeaderRead(m: Message)
    requires |m.wasm| < 0x1_0000_0000 && |m.args| < 0x1_0000 && |m.name| <= MAX_NAME
    ensures var input := Encode(m);
            WasmSize(input) == |m.wasm| && NameLen(input) == |m.name| && Argc(input) == |m.args|
  {
    var input, h := Encode(m), Header(m);
    assert input[..12] == h;
    assert input[0..4] == h[0..4] == Le32(|m.wasm|);
    assert input[4..8] == h[4..8] == Le32(|m.name|);
    assert input[8..10] == h[8..10] == Le16(|m.args|);
    Le32At(input, 0, |m.wasm|);
    Le32At(input, 4, |m.name|);
    Le16At(input, 8, |m.args|);
  }

  lemma AlignPads(n: nat)
    ensures Align4(HEADER_SIZE + n) == HEADER_SIZE + n + |Padding(n)|
  {
  }

  lemma {:induction false} NameReceived(m: Message)
    requires ValidMessage(m)
    ensures Received(Encode(m)).name == CString(m.name)
  {
    HeaderRead(m);
    SliceIs(Encode(m), Header(m), m.name, Padding(|m.name|) + ArgBytes(m.args) + m.wasm);
  }

  lemma {:induction false} ArgsReceived(m: Message)
    requires ValidMessage(m)
    ensures Received(Encode(m)).args == if |m.args| <= MAX_ARGS then m.args else m.args[..MAX_ARGS]
  {
    var before, n := Header(m) + m.name + Padding(|m.name|), ArgsRead(Encode(m));
    HeaderRead(m);
    AlignPads(|m.name|);
    assert ArgsOffset(Encode(m)) == |before|;
    ArgsAre(Encode(m), before, m.args, m.wasm, n);
    assert Received(Encode(m)).args == m.args[..n];
  }

  lemma {:induction false} WasmReceived(m: Message)
    requires ValidMessage(m) && |m.args| <= MAX_ARGS
    ensures Received(Encode(m)).wasm == m.wasm
  {
    var before := Header(m) + m.name + Padding(|m.name|) + ArgBytes(m.args);
    HeaderRead(m);
    AlignPads(|m.name|);
    assert WasmOffset(Encode(m)) == |before|;
    SliceIs(Encode(m), before, m.wasm, []);
  }

  /** The runtime receives exactly what was sent if and only if there are at most 16 arguments and no
      zero byte in the name. */
  lemma {:induction false} ReceivedIsSent(m: Message)
    requires ValidMessage(m)
    ensures Received(Encode(m)) == m <==> |m.args| <= MAX_ARGS && 0 !in m.name
  {
    NameReceived(m);
    ArgsReceived(m);
    if |m.args| <= MAX_ARGS {
      WasmReceived(m);
    }
    CStringIsWhole(m.name);
  }

  /** With more arguments the byte code is looked for in the wrong place, four bytes early for each
      argument too many. */
  lemma {:induction false} WasmLookedForEarly(m: Message)
    requires ValidMessage(m)
    ensures var documented := |Encode(m)| - |m.wasm|;
            WasmOffset(Encode(m)) == documented - (if |m.args| <= MAX_ARGS then 0 else 4 * (|m.args| - MAX_ARGS))
  {
    HeaderRead(m);
    AlignPads(|m.name|);
  }
}
