/** Vocabulary shared by the models of the SentinelSwitch services. */
module Common {
  datatype Option<+T> = None | Some(value: T)

  /** The verdict enum shared by the risk, fraud-result and gateway protocols. */
  datatype Decision = Unspecified | Approve | Decline | Review

  /** A Redis command or a publish is executed and answered, executed without an answer, or not executed at all. */
  datatype Reply = Answered | Unanswered | Lost

  function Max(a: int, b: int): int {
    if a >= b then a else b
  }

  /** The positions below n that pass a test, in order. */
  function Positions(n: nat, test: nat -> bool): seq<nat> {
    if n == 0 then [] else
      var init := Positions(n - 1, test);
      if test(n - 1) then init + [n - 1] else init
  }

  /** They are all of them, and no others, in ascending order. */
  lemma {:induction false} PositionsExactly(n: nat, test: nat -> bool)
    ensures var js := Positions(n, test);
      && (forall i: nat :: i in js <==> i < n && test(i))
      && (forall a, b :: 0 <= a < b < |js| ==> js[a] < js[b])
  {
    if n > 0 {
      PositionsExactly(n - 1, test);
      var init := Positions(n - 1, test);
      assert forall a :: 0 <= a < |init| ==> init[a] in init;
    }
  }
}

/** The five-byte Confluent frame in front of every Kafka value. */
module Wire {
  import opened Common

  type Bytes = seq<bv8>

  /** The magic byte, the four bytes of the schema's id, and the payload. */
  function Frame(schemaId: Bytes, payload: Bytes): Bytes
    requires |schemaId| == 4
  {
    [0] + schemaId + payload
  }

  /** Strips the frame and unmarshals the rest; the protobuf decoder is a parameter. */
  function Decode<T>(unmarshal: Bytes -> Option<T>, raw: Bytes): Option<T> {
    if |raw| < 5 then None
    else if raw[0] != 0 then None
    else unmarshal(raw[5..])
  }

  /** What was framed is unmarshalled, whatever its schema; anything else is refused. */
  lemma DecodeExactly<T>(unmarshal: Bytes -> Option<T>, raw: Bytes)
    ensures forall id, payload :: |id| == 4 && raw == Frame(id, payload) ==> Decode(unmarshal, raw) == unmarshal(payload)
    ensures Decode(unmarshal, raw).Some? ==> exists id, payload :: |id| == 4 && raw == Frame(id, payload)
  {
    forall id, payload | |id| == 4 && raw == Frame(id, payload) ensures Decode(unmarshal, raw) == unmarshal(payload) {
      assert raw[5..] == payload;
    }
    if Decode(unmarshal, raw).Some? {
      assert raw == Frame(raw[1..5], raw[5..]);
    }
  }
}
