/**
  The growing byte buffer of message.cpp and message.h. A value is the bytes of a trivially copyable object;
  whether an allocation succeeds is up to the caller of `Encode`.
 */
module Message {
  import opened Integers
  import opened PowerOfTwo

  /** A value occupies at least one byte. */
  type Value = v: seq<Byte> | 1 <= |v| witness [0]

  function Flatten(values: seq<Value>): seq<Byte> {
    if values == [] then [] else Flatten(values[..|values| - 1]) + values[|values| - 1]
  }

  lemma FlattenAppend(values: seq<Value>, v: Value)
    ensures Flatten(values + [v]) == Flatten(values) + v
  {
    assert (values + [v])[..|values|] == values;
  }

  lemma {:induction false} FlattenPrefix(values: seq<Value>, k: nat)
    requires k < |values|
    ensures |Flatten(values[..k])| + |values[k]| <= |Flatten(values)|
    ensures Flatten(values)[|Flatten(values[..k])|..|Flatten(values[..k])| + |values[k]|] == values[k]
  {
    var n := |values| - 1;
    if k < n {
      FlattenPrefix(values[..n], k);
      assert values[..n][..k] == values[..k];
    }
  }

  /** `memcpy` of a value into a buffer. */
  method CopyInto(a: array<Byte>, at: nat, value: seq<Byte>)
    requires at + |value| <= a.Length
    modifies a
    ensures a[..at + |value|] == old(a[..at]) + value
  {
    for i := 0 to |value|
      invariant a[..at + i] == old(a[..at]) + value[..i]
    {
      a[at + i] := value[i];
    }
  }

  datatype Outcome = Written | Refused | Overrun

  /** What fits of the old contents is in the new. */
  ghost predicate Kept(before: seq<Byte>, after: seq<Byte>) {
    if |before| <= |after| then after[..|before|] == before else after == before[..|after|]
  }

  class Message {
    var buffer: array?<Byte>
    var bufferLength: nat
    var dataLength: nat
    var sizeRead: nat

    /** The values encoded so far. */
    ghost var values: seq<Value>

    ghost predicate Valid()
      reads this, buffer
    {
      && (buffer == null ==> bufferLength == 0 && values == [] && dataLength == 0)
      && (buffer != null ==> buffer.Length == bufferLength && dataLength <= bufferLength &&
                             buffer[..dataLength] == Flatten(values))
      && Capacity(bufferLength, |values|)
      && bufferLength == CapacityOf(values)
    }

    constructor ()
      ensures Valid() && values == [] && sizeRead == 0 && buffer == null
    {
      buffer, bufferLength, dataLength, sizeRead, values := null, 0, 0, 0, [];
    }

    method ResetRead()
      requires Valid()
      modifies this`sizeRead
      ensures Valid() && sizeRead == 0
    {
      sizeRead := 0;
    }

    /** The capacity is that of the buffer. */
    ghost predicate Shape()
      reads this
    {
      if buffer == null then bufferLength == 0 else buffer.Length == bufferLength
    }

    /** `Resize`; like `realloc`, it also shrinks, and may have freed the buffer when it is refused no bytes at all. */
    method Resize(size: nat, granted: bool) returns (ok: bool)
      requires Shape()
      modifies this`buffer, this`bufferLength
      ensures ok == granted
      ensures !ok && size > 0 ==> buffer == old(buffer) && bufferLength == old(bufferLength)
      ensures ok ==> Shape() && buffer != null && fresh(buffer) && bufferLength == size
      ensures ok && old(buffer) != null ==> Kept(old(buffer[..]), buffer[..])
    {
      if !granted {
        return false;
      }
      var resized := new Byte[size];
      if buffer != null {
        var current: array<Byte> := buffer;
        var n := if size < bufferLength then size else bufferLength;
        for i := 0 to n
          invariant resized[..i] == current[..i] && current[..] == old(buffer[..])
        {
          resized[i] := current[i];
        }
      }
      buffer, bufferLength := resized, size;
      ok := true;
    }

    method Reserve(size: nat, granted: bool) returns (ok: bool)
      requires Shape()
      modifies this`buffer, this`bufferLength
      ensures ok == (granted || size <= old(bufferLength)) && (ok ==> Shape())
      ensures (!ok && NextOfTwoSize(size) > 0) || size <= old(bufferLength) ==>
                buffer == old(buffer) && bufferLength == old(bufferLength)
      ensures ok && old(bufferLength) < size ==> buffer != null && fresh(buffer) && bufferLength == NextOfTwoSize(size)
      ensures ok && old(bufferLength) < size && old(buffer) != null ==> Kept(old(buffer[..]), buffer[..])
    {
      if bufferLength >= size {
        return true;
      }
      ok := Resize(NextOfTwoSize(size), granted);
    }

    /** `PrepareEncode`: where the value goes. There is room for it exactly when the request is at most 2^31. */
    method PrepareEncode(size: nat, granted: bool) returns (ok: bool, at: nat)
      requires Valid() && 1 <= size
      modifies this`buffer, this`bufferLength, this`dataLength
      ensures ok == granted && (ok ==> Shape()) && at == old(dataLength)
      ensures !ok ==> dataLength == old(dataLength)
      ensures !ok && NextOfTwoSize(old(bufferLength) + size) > 0 ==>
                buffer == old(buffer) && bufferLength == old(bufferLength)
      ensures ok ==> buffer != null && fresh(buffer) && dataLength == at + size
      ensures ok ==> (dataLength <= bufferLength <==> old(bufferLength) + size <= TWO31)
      ensures ok && dataLength <= bufferLength ==>
                && LeastPower(old(bufferLength) + size, bufferLength) && Capacity(bufferLength, |values| + 1)
                && bufferLength == CeilPower(old(bufferLength) + size) && buffer[..at] == Flatten(values)
    {
      RoomIff(bufferLength, dataLength, size);
      ok := Reserve(bufferLength + size, granted);
      at := dataLength;
      if ok {
        dataLength := dataLength + size;
        if old(bufferLength) + size <= TWO31 {
          NextIsLeastPower(old(bufferLength) + size);
          GrowCapacity(old(bufferLength), |values|, size, bufferLength);
          assert old(buffer) != null ==> buffer[..at] == buffer[..old(bufferLength)][..at];
        }
      }
    }

    /**
      Beyond 2^31 the source writes past the end of its buffer, or asks for no bytes at all and is refused them;
      then nothing is promised.
     */
    method Encode(value: Value, granted: bool) returns (outcome: Outcome)
      requires Valid()
      modifies this, buffer
      ensures outcome == Refused <==> !granted
      ensures outcome == Overrun <==> granted && old(bufferLength) + |value| > TWO31
      ensures outcome == Written ==> Valid() && sizeRead == old(sizeRead)
      ensures outcome == Written ==> values == old(values) + [value] && dataLength == old(dataLength) + |value|
      ensures outcome == Written ==> LeastPower(old(bufferLength) + |value|, bufferLength) && fresh(buffer)
      ensures outcome == Refused && NextOfTwoSize(old(bufferLength) + |value|) > 0 ==>
                && Valid() && values == old(values) && dataLength == old(dataLength) && sizeRead == old(sizeRead)
                && buffer == old(buffer) && bufferLength == old(bufferLength)
    {
      var ok, at := PrepareEncode(|value|, granted);
      if !ok {
        return Refused;
      }
      if dataLength > bufferLength {
        return Overrun;
      }
      Write(value, at);
      outcome := Written;
    }

    /** The bytes of a value, where `PrepareEncode` has made room for them. */
    method Write(value: Value, at: nat)
      requires Shape() && buffer != null && dataLength == at + |value| <= bufferLength && buffer[..at] == Flatten(values)
      requires Capacity(bufferLength, |values| + 1) && bufferLength == CeilPower(CapacityOf(values) + |value|)
      modifies buffer, this`values
      ensures Valid() && values == old(values) + [value]
    {
      FlattenAppend(values, value);
      CapacityAppend(values, value);
      CopyInto(buffer, at, value);
      values := values + [value];
    }

    /** `Decode` of an object of `size` bytes; a read is limited by the capacity of the buffer. */
    method Decode(size: nat) returns (ok: bool, value: seq<Byte>)
      requires Valid() && 1 <= size
      modifies this`sizeRead
      ensures Valid() && (ok <==> old(sizeRead) + size <= bufferLength)
      ensures !ok ==> sizeRead == old(sizeRead)
      ensures ok ==> sizeRead == old(sizeRead) + size && |value| == size
      ensures ok && sizeRead <= dataLength ==> value == Flatten(values)[old(sizeRead)..sizeRead]
    {
      if size + sizeRead > bufferLength {
        return false, [];
      }
      value := buffer[sizeRead..sizeRead + size];
      sizeRead := sizeRead + size;
      ok := true;
    }
  }

  // ---------- how far a message grows ----------

  /** After `n` values the buffer is a power of two of at least 2^(n-1) bytes, at most 2^31. */
  ghost predicate Capacity(length: nat, n: nat) {
    if n == 0 then length == 0
    else length <= TWO31 && Pow2(n - 1) <= length && exists k: nat :: length == Pow2(k)
  }

  /** The capacity of a message that holds `values`. */
  ghost function CapacityOf(values: seq<Value>): nat {
    if values == [] then 0
    else CeilPower(CapacityOf(values[..|values| - 1]) + |values[|values| - 1]|)
  }

  lemma CapacityAppend(values: seq<Value>, v: Value)
    ensures CapacityOf(values + [v]) == CeilPower(CapacityOf(values) + |v|)
  {
    assert (values + [v])[..|values|] == values;
  }

  /** Every value at least doubles the capacity. */
  lemma GrowCapacity(length: nat, n: nat, size: nat, r: nat)
    requires Capacity(length, n) && 1 <= size && length + size <= TWO31 && LeastPower(length + size, r)
    ensures Capacity(r, n + 1)
    ensures 2 * length <= r && length + size <= r
  {
    var x := length + size;
    var k: nat :| IsLeastPower(x, r, k);
    Pow2At31();
    LeastPowerIsLeast(x, r, 31);
    if n != 0 {
      var j: nat :| length == Pow2(j);
      if k <= j {
        Pow2Monotonic(k, j);
      }
      Pow2Monotonic(j + 1, k);
    }
  }

  /** So a message accepts at most 32 values. */
  lemma AtMost32Values(length: nat, n: nat)
    requires Capacity(length, n)
    ensures n <= 32
  {
    if 33 <= n {
      Pow2At31();
      Pow2Monotonic(32, n - 1);
    }
  }

  // ---------- round trips ----------

  /** Reads back every value, with the types of the values in their order. */
  method DecodeAll(m: Message, sizes: seq<nat>) returns (decoded: seq<seq<Byte>>)
    requires m.Valid() && m.sizeRead == 0
    requires |sizes| == |m.values| && forall i :: 0 <= i < |sizes| ==> sizes[i] == |m.values[i]|
    modifies m`sizeRead
    ensures m.Valid() && decoded == m.values && m.sizeRead == m.dataLength
  {
    ghost var values := m.values;
    decoded := [];
    for k := 0 to |sizes|
      invariant m.Valid() && decoded == values[..k] && m.sizeRead == |Flatten(values[..k])|
    {
      FlattenPrefix(values, k);
      assert values[..k + 1][..k] == values[..k];
      var ok, value := m.Decode(sizes[k]);
      decoded := decoded + [value];
    }
    assert values[..|values|] == values;
  }

  /** Those of `values` whose allocation is granted and whose request keeps the capacity within 32 bits. */
  ghost function Accepted(values: seq<Value>, grants: seq<bool>): seq<Value>
    requires |grants| == |values|
  {
    if values == [] then []
    else
      var n := |values| - 1;
      var before := Accepted(values[..n], grants[..n]);
      if grants[n] && CapacityOf(before) + |values[n]| <= TWO31 then before + [values[n]] else before
  }

  lemma AcceptedStep(values: seq<Value>, grants: seq<bool>, i: nat)
    requires |grants| == |values| && i < |values|
    ensures var before := Accepted(values[..i], grants[..i]);
            Accepted(values[..i + 1], grants[..i + 1]) ==
            if grants[i] && CapacityOf(before) + |values[i]| <= TWO31 then before + [values[i]] else before
  {
    assert values[..i + 1][..i] == values[..i] && grants[..i + 1][..i] == grants[..i];
  }

  /** `Encode` by a caller that first looks whether its request keeps the capacity within 2^31 bytes. */
  method TryEncode(m: Message, value: Value, granted: bool) returns (ok: bool)
    requires m.Valid()
    modifies m, m.buffer
    ensures m.Valid() && m.sizeRead == old(m.sizeRead) && (m.buffer == old(m.buffer) || fresh(m.buffer))
    ensures ok <==> granted && CapacityOf(old(m.values)) + |value| <= TWO31
    ensures m.values == if ok then old(m.values) + [value] else old(m.values)
  {
    ok := false;
    if m.bufferLength + |value| <= TWO31 {
      NextIsLargeEnoughIff(m.bufferLength + |value|);
      var outcome := m.Encode(value, granted);
      ok := outcome == Written;
    }
  }

  /**
    Encodes some values into a new message, as far as allocations are granted and the capacity stays within
    32 bits, and decodes what was accepted: it comes back as it went in, and nothing is left to read.
   */
  method RoundTrip(values: seq<Value>, grants: seq<bool>)
      returns (accepted: seq<Value>, decoded: seq<seq<Byte>>, left: int)
    requires |grants| == |values|
    ensures accepted == Accepted(values, grants)
    ensures decoded == accepted && left == 0 && |accepted| <= 32
  {
    var m := new Message();
    accepted := [];
    for i := 0 to |values|
      invariant fresh(m) && (m.buffer != null ==> fresh(m.buffer)) && m.Valid()
      invariant m.values == accepted == Accepted(values[..i], grants[..i]) && m.sizeRead == 0
    {
      AcceptedStep(values, grants, i);
      var ok := TryEncode(m, values[i], grants[i]);
      accepted := if ok then accepted + [values[i]] else accepted;
    }
    assert values[..|values|] == values && grants[..|grants|] == grants;
    AtMost32Values(m.bufferLength, |accepted|);
    decoded := DecodeAll(m, seq(|accepted|, i requires 0 <= i < |accepted| => |accepted[i]|));
    left := m.dataLength - m.sizeRead;
  }

  predicate SingleBytes(values: seq<Value>) { forall i :: 0 <= i < |values| ==> |values[i]| == 1 }

  /** Every single byte doubles the capacity. */
  lemma {:induction false} SingleBytesDouble(values: seq<Value>)
    requires values != [] && SingleBytes(values)
    ensures CapacityOf(values) == Pow2(|values| - 1)
  {
    var n := |values| - 1;
    var length := CapacityOf(values[..n]);
    if n != 0 {
      SingleBytesDouble(values[..n]);
      assert IsLeastPower(length + 1, Pow2(n), n);
      var k := CeilPowerIsLeast(length + 1);
      LeastPowerIsUnique(length + 1, CeilPower(length + 1), Pow2(n));
    }
  }

  /** 32 single bytes are accepted, so that no smaller bound than 32 holds. */
  lemma {:induction false} SingleBytesAreAccepted(values: seq<Value>, grants: seq<bool>)
    requires SingleBytes(values) && |values| <= 32
    requires |grants| == |values| && forall i :: 0 <= i < |grants| ==> grants[i]
    ensures Accepted(values, grants) == values
  {
    if values != [] {
      var n := |values| - 1;
      SingleBytesAreAccepted(values[..n], grants[..n]);
      if n != 0 {
        SingleBytesDouble(values[..n]);
        Pow2At31();
        Pow2Monotonic(n - 1, 30);
      }
      assert values == values[..n] + [values[n]];
    }
  }
}
