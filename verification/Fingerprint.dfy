/** The byte stream that process fingerprints digest (src/process_observation/identity.rs).

    Every variable-length field is preceded by its length as eight little-endian
    bytes. The decoder below is not part of the program: it is the partner that
    shows the stream determines the executable and the argument list. */
module Fingerprint {
  import opened Common

  newtype byte = x: int | 0 <= x < 256

  type Bytes = seq<byte>

  datatype Observed = Observed(executable: Bytes, argv: seq<Bytes>)

  const LENGTH_WIDTH: nat := 8
  const LENGTH_LIMIT: nat := 0x1_0000_0000_0000_0000

  /** The sink a fingerprint is written to; a digest sees exactly `input`. */
  class HashSink {
    var input: Bytes

    constructor ()
      ensures input == []
    {
      input := [];
    }

    method Write(bytes: Bytes)
      modifies this
      ensures input == old(input) + bytes
    {
      input := input + bytes;
    }
  }

  function Power256(width: nat): (p: nat)
    ensures p > 0
  {
    if width == 0 then 1 else 256 * Power256(width - 1)
  }

  /** `width` bytes of `n`, least significant first. */
  function LittleEndian(n: nat, width: nat): (bytes: Bytes)
    ensures |bytes| == width
  {
    if width == 0 then [] else [(n % 256) as byte] + LittleEndian(n / 256, width - 1)
  }

  function FromLittleEndian(bytes: Bytes): nat {
    if bytes == [] then 0 else bytes[0] as nat + 256 * FromLittleEndian(bytes[1..])
  }

  function LengthPrefix(length: nat): (prefix: Bytes)
    ensures |prefix| == LENGTH_WIDTH
  {
    LittleEndian(length, LENGTH_WIDTH)
  }

  function Arguments(argv: seq<Bytes>): Bytes {
    if argv == [] then [] else LengthPrefix(|argv[0]|) + argv[0] + Arguments(argv[1..])
  }

  function HashInput(observed: Observed): Bytes {
    LengthPrefix(|observed.executable|) + observed.executable
    + LengthPrefix(|observed.argv|) + Arguments(observed.argv)
  }

  /** What a length on a 64-bit host can be. */
  ghost predicate Addressable(observed: Observed) {
    && |observed.executable| < LENGTH_LIMIT
    && |observed.argv| < LENGTH_LIMIT
    && forall argument <- observed.argv :: |argument| < LENGTH_LIMIT
  }

  lemma ArgumentsSnoc(argv: seq<Bytes>, last: Bytes)
    ensures Arguments(argv + [last]) == Arguments(argv) + LengthPrefix(|last|) + last
  {
    if argv == [] {
      assert argv + [last] == [last];
      assert Arguments([last][1..]) == [];
    } else {
      assert (argv + [last])[1..] == argv[1..] + [last];
      ArgumentsSnoc(argv[1..], last);
    }
  }

  method WriteField(field: Bytes, sink: HashSink)
    modifies sink
    ensures sink.input == old(sink.input) + (LengthPrefix(|field|) + field)
  {
    sink.Write(LengthPrefix(|field|));
    sink.Write(field);
  }

  lemma OneMoreArgument(start: Bytes, argv: seq<Bytes>, i: nat)
    requires i < |argv|
    ensures start + Arguments(argv[..i]) + (LengthPrefix(|argv[i]|) + argv[i]) == start + Arguments(argv[..i + 1])
  {
    assert argv[..i + 1] == argv[..i] + [argv[i]];
    ArgumentsSnoc(argv[..i], argv[i]);
  }

  lemma WholeInput(before: Bytes, observed: Observed)
    ensures before + (LengthPrefix(|observed.executable|) + observed.executable) + LengthPrefix(|observed.argv|)
            + Arguments(observed.argv)
         == before + HashInput(observed)
  {
  }

  /** The loop in `write_hash_input` emits exactly the stream the decoder reads. */
  method WriteHashInput(observed: Observed, sink: HashSink)
    modifies sink
    ensures sink.input == old(sink.input) + HashInput(observed)
  {
    WriteField(observed.executable, sink);
    sink.Write(LengthPrefix(|observed.argv|));
    ghost var start := sink.input;
    for i := 0 to |observed.argv|
      invariant sink.input == start + Arguments(observed.argv[..i])
    {
      WriteField(observed.argv[i], sink);
      OneMoreArgument(start, observed.argv, i);
    }
    assert observed.argv[..|observed.argv|] == observed.argv;
    WholeInput(old(sink.input), observed);
  }

  // ---------------------------------------------------------------------------
  // The decoder
  // ---------------------------------------------------------------------------

  function DecodeField(stream: Bytes): Option<(Bytes, Bytes)> {
    if |stream| < LENGTH_WIDTH then None
    else
      var length := FromLittleEndian(stream[..LENGTH_WIDTH]);
      var rest := stream[LENGTH_WIDTH..];
      if |rest| < length then None else Some((rest[..length], rest[length..]))
  }

  function DecodeArguments(count: nat, stream: Bytes): Option<(seq<Bytes>, Bytes)> {
    if count == 0 then Some(([], stream))
    else
      match DecodeField(stream)
      case None => None
      case Some((argument, rest)) =>
        match DecodeArguments(count - 1, rest)
        case None => None
        case Some((arguments, remainder)) => Some(([argument] + arguments, remainder))
  }

  function Decode(stream: Bytes): Option<(Observed, Bytes)> {
    match DecodeField(stream)
    case None => None
    case Some((executable, rest)) =>
      if |rest| < LENGTH_WIDTH then None
      else
        match DecodeArguments(FromLittleEndian(rest[..LENGTH_WIDTH]), rest[LENGTH_WIDTH..])
        case None => None
        case Some((argv, remainder)) => Some((Observed(executable, argv), remainder))
  }

  lemma {:induction false} LittleEndianRoundTrip(n: nat, width: nat)
    requires n < Power256(width)
    ensures FromLittleEndian(LittleEndian(n, width)) == n
  {
    if width > 0 {
      LittleEndianRoundTrip(n / 256, width - 1);
      assert LittleEndian(n, width)[1..] == LittleEndian(n / 256, width - 1);
    }
  }

  lemma LengthRoundTrip(length: nat)
    requires length < LENGTH_LIMIT
    ensures FromLittleEndian(LengthPrefix(length)) == length
  {
    assert Power256(4) == 256 * (256 * (256 * (256 * Power256(0))));
    assert Power256(8) == 256 * (256 * (256 * (256 * Power256(4))));
    LittleEndianRoundTrip(length, LENGTH_WIDTH);
  }

  lemma FieldRoundTrip(field: Bytes, tail: Bytes)
    requires |field| < LENGTH_LIMIT
    ensures DecodeField(LengthPrefix(|field|) + field + tail) == Some((field, tail))
  {
    LengthRoundTrip(|field|);
    var stream := LengthPrefix(|field|) + field + tail;
    assert stream[..LENGTH_WIDTH] == LengthPrefix(|field|);
    assert stream[LENGTH_WIDTH..] == field + tail;
  }

  lemma ArgumentsSplit(argv: seq<Bytes>, tail: Bytes)
    requires argv != []
    ensures Arguments(argv) + tail == LengthPrefix(|argv[0]|) + argv[0] + (Arguments(argv[1..]) + tail)
  {
  }

  lemma DecodeOneArgument(count: nat, stream: Bytes, argument: Bytes, rest: Bytes, arguments: seq<Bytes>, tail: Bytes)
    requires count > 0 && DecodeField(stream) == Some((argument, rest))
    requires DecodeArguments(count - 1, rest) == Some((arguments, tail))
    ensures DecodeArguments(count, stream) == Some(([argument] + arguments, tail))
  {
  }

  lemma {:induction false} ArgumentsRoundTrip(argv: seq<Bytes>, tail: Bytes)
    requires forall argument <- argv :: |argument| < LENGTH_LIMIT
    ensures DecodeArguments(|argv|, Arguments(argv) + tail) == Some((argv, tail))
  {
    if argv == [] {
      assert Arguments(argv) + tail == tail;
    } else {
      var rest := Arguments(argv[1..]) + tail;
      ArgumentsSplit(argv, tail);
      FieldRoundTrip(argv[0], rest);
      ArgumentsRoundTrip(argv[1..], tail);
      DecodeOneArgument(|argv|, Arguments(argv) + tail, argv[0], rest, argv[1..], tail);
      assert argv == [argv[0]] + argv[1..];
    }
  }

  lemma HashInputSplit(observed: Observed, tail: Bytes)
    ensures HashInput(observed) + tail
         == LengthPrefix(|observed.executable|) + observed.executable
            + (LengthPrefix(|observed.argv|) + (Arguments(observed.argv) + tail))
  {
  }

  lemma CountSplit(count: nat, rest: Bytes)
    requires count < LENGTH_LIMIT
    ensures var counted := LengthPrefix(count) + rest;
            && |counted| >= LENGTH_WIDTH
            && FromLittleEndian(counted[..LENGTH_WIDTH]) == count && counted[LENGTH_WIDTH..] == rest
  {
    LengthRoundTrip(count);
    var counted := LengthPrefix(count) + rest;
    assert counted[..LENGTH_WIDTH] == LengthPrefix(count);
  }

  lemma DecodeByParts(stream: Bytes, observed: Observed, counted: Bytes, tail: Bytes)
    requires DecodeField(stream) == Some((observed.executable, counted)) && |counted| >= LENGTH_WIDTH
    requires DecodeArguments(FromLittleEndian(counted[..LENGTH_WIDTH]), counted[LENGTH_WIDTH..])
         == Some((observed.argv, tail))
    ensures Decode(stream) == Some((observed, tail))
  {
  }

  /** Whatever follows the stream, the decoder recovers the observation and stops
      exactly at its end. */
  lemma HashInputRoundTrip(observed: Observed, tail: Bytes)
    requires Addressable(observed)
    ensures Decode(HashInput(observed) + tail) == Some((observed, tail))
  {
    var rest := Arguments(observed.argv) + tail;
    var counted := LengthPrefix(|observed.argv|) + rest;
    HashInputSplit(observed, tail);
    FieldRoundTrip(observed.executable, counted);
    CountSplit(|observed.argv|, rest);
    ArgumentsRoundTrip(observed.argv, tail);
    DecodeByParts(HashInput(observed) + tail, observed, counted, tail);
  }

  /** Two observations feed the digest the same bytes only when they are equal, and
      one stream is never a proper prefix of another. */
  lemma HashInputInjective(left: Observed, right: Observed)
    requires Addressable(left) && Addressable(right)
    ensures HashInput(left) <= HashInput(right) <==> left == right
  {
    if HashInput(left) <= HashInput(right) {
      var tail := HashInput(right)[|HashInput(left)|..];
      assert HashInput(right) == HashInput(left) + tail;
      HashInputRoundTrip(left, tail);
      HashInputRoundTrip(right, []);
      assert HashInput(right) + [] == HashInput(right);
    }
  }
}
