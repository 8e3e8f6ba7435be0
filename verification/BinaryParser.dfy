/** The streaming parser as an object: push feeds bytes one by one and reports each result once. */
module BinaryParsers {
  import opened Basics
  import opened Bytes
  import opened Crc32s
  import opened WireFormat
  import opened ParserSpec

  function CountDecoded(results: seq<ParseResult>): (n: nat)
    ensures n <= |results|
    decreases |results|
  {
    if results == [] then 0
    else CountDecoded(results[..|results| - 1]) + if results[|results| - 1].Decoded? then 1 else 0
  }

  class BinaryParser {
    const table: seq<Word>
    var mode: Mode
    var buf: seq<Byte>
    var payloadLen: nat
    var code: Byte
    var framesDecoded: nat
    var framesRejected: nat
    ghost var reported: seq<ParseResult>  // the callback's arguments so far

    ghost function State(): Parser
      reads this
    {
      Parser(mode, buf, payloadLen, code)
    }

    /** Every result is counted once, as decoded or as rejected. */
    ghost predicate Valid()
      reads this
    {
      && IsTable(table)
      && framesDecoded == CountDecoded(reported) && framesDecoded + framesRejected == |reported|
    }

    constructor ()
      ensures Valid() && State() == INITIAL && reported == []
    {
      var crcTable := MakeCrcTable();
      table := crcTable;
      mode, buf, payloadLen, code := SeekMagic, [], 0, UNKNOWN;
      framesDecoded, framesRejected, reported := 0, 0, [];
    }

    method Reset()
      modifies this`mode, this`buf, this`payloadLen, this`code
      ensures State() == INITIAL
    {
      mode, buf, payloadLen, code := SeekMagic, [], 0, UNKNOWN;
    }

    method Push(data: seq<Byte>) returns (results: seq<ParseResult>)
      requires Valid()
      modifies this
      ensures Valid()
      ensures (State(), results) == ParserSpec.Push(old(State()), data) && reported == old(reported) + results
    {
      hide ParserSpec.Push, Step, IsTable, CountDecoded;
      results := [];
      PushNothing(State());
      assert data[..0] == [];
      for i := 0 to |data|
        invariant Valid() && reported == old(reported) + results
        invariant (State(), results) == ParserSpec.Push(old(State()), data[..i])
      {
        PushAppend(old(State()), data[..i], [data[i]]);
        PushOne(State(), data[i]);
        assert data[..i] + [data[i]] == data[..i + 1];
        var more := ProcessByte(data[i]);
        results := results + more;
      }
      assert data[..|data|] == data;
    }

    method ProcessByte(b: Byte) returns (results: seq<ParseResult>)
      requires Valid()
      modifies this
      ensures Valid()
      ensures (State(), results) == Step(old(State()), b) && reported == old(reported) + results
    {
      hide IsTable, ReadU32, ReadU16, Dispatch, CountDecoded;
      results := [];
      match mode
      case SeekMagic =>
        buf := buf + [b];
        if |buf| < 4 { return; }
        if ReadU32(buf[..4]) == 0xFEED_0001 {
          mode := ReadHeader;
        } else {
          buf := buf[1..];
        }
      case ReadHeader =>
        buf := buf + [b];
        if |buf| < HEADER_SIZE { return; }
        var length := ReadU16(buf[5..7]);
        code := buf[4];
        payloadLen := length;
        if payloadLen > MAX_PAYLOAD {
          framesRejected := framesRejected + 1;
          results := [Failed(PayloadTooLarge)];
          CountMore(reported, Failed(PayloadTooLarge));
          reported := reported + results;
          Reset();
          return;
        }
        mode := if payloadLen > 0 then ReadPayload else ReadTrailer;
      case ReadPayload =>
        buf := buf + [b];
        if |buf| < HEADER_SIZE + payloadLen { return; }
        mode := ReadTrailer;
      case ReadTrailer =>
        buf := buf + [b];
        if |buf| < HEADER_SIZE + payloadLen + TRAILER_SIZE { return; }
        var result := DispatchFrame();
        results := [result];
    }

    method DispatchFrame() returns (result: ParseResult)
      requires Valid() && |buf| >= HEADER_SIZE + payloadLen + TRAILER_SIZE
      modifies this
      ensures Valid() && State() == INITIAL && reported == old(reported) + [result]
      ensures result == old(Dispatch(code, payloadLen, buf[..HEADER_SIZE + payloadLen + TRAILER_SIZE]))
    {
      hide IsTable, ReadU32, Crc, Interpret, Dispatch, CountDecoded;
      var crcOffset := HEADER_SIZE + payloadLen;
      DispatchIs(code, payloadLen, buf);
      var expectedCrc := Crc32(table, buf[..crcOffset]);
      var wireCrc := ReadU32(buf[crcOffset..crcOffset + TRAILER_SIZE]);
      result := if wireCrc != expectedCrc then Failed(BadCRC) else Interpret(code, buf[HEADER_SIZE..crcOffset]);
      if result.Decoded? {
        framesDecoded := framesDecoded + 1;
      } else {
        framesRejected := framesRejected + 1;
      }
      CountMore(reported, result);
      reported := reported + [result];
      Reset();
    }
  }

  lemma DispatchIs(code: Byte, length: nat, buf: seq<Byte>)
    requires |buf| >= HEADER_SIZE + length + TRAILER_SIZE
    ensures var end := HEADER_SIZE + length;
            Dispatch(code, length, buf[..end + TRAILER_SIZE]) ==
              if ReadU32(buf[end..end + TRAILER_SIZE]) != Crc(buf[..end]) then Failed(BadCRC)
              else Interpret(code, buf[HEADER_SIZE..end])
  {
    hide ReadU32, Crc, Interpret;
    var end := HEADER_SIZE + length;
    var frame := buf[..end + TRAILER_SIZE];
    assert frame[..end] == buf[..end] && frame[end..] == buf[end..end + TRAILER_SIZE];
    assert frame[HEADER_SIZE..end] == buf[HEADER_SIZE..end];
  }

  lemma CountMore(results: seq<ParseResult>, r: ParseResult)
    ensures CountDecoded(results + [r]) == CountDecoded(results) + if r.Decoded? then 1 else 0
  {
    assert (results + [r])[..|results|] == results;
  }
}
