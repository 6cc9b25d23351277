/** The writing side of proto.Buffer (gogo/protobuf/proto encode.go). The Go slice `buf`
    is a prefix of its backing array: `data[..len]` is visible, the rest is spare capacity
    that an append may overwrite and a reslice may bring back. */
module EncodeBuffers {
  import opened Words
  import opened Varint

  class EncodeBuffer {
    var data: array<byte>
    var len: nat

    ghost predicate Valid()
      reads this
    {
      len <= data.Length
    }

    /** What Go sees as `o.buf`. */
    ghost function Contents(): seq<byte>
      reads this, data
      requires Valid()
    {
      data[..len]
    }

    constructor ()
      ensures Valid() && fresh(data) && Contents() == []
    {
      data, len := new byte[0], 0;
    }

    /** Go's append: in place when the capacity allows it, otherwise into a new array. */
    method Append(bs: seq<byte>)
      requires Valid()
      modifies this, data
      ensures Valid() && Contents() == old(Contents()) + bs
      ensures data == old(data) || fresh(data)
      ensures len <= old(data.Length) ==>
                data == old(data) && forall j :: len <= j < data.Length ==> data[j] == old(data[j])
    {
      var end := len + |bs|;
      if end > data.Length {
        var grown := new byte[2 * end];
        forall i | 0 <= i < len {
          grown[i] := data[i];
        }
        data := grown;
      }
      forall i | 0 <= i < |bs| {
        data[len + i] := bs[i];
      }
      len := end;
    }

    /** Go's copy between two parts of the buffer, which may overlap. */
    method Move(to: nat, from: nat, n: nat)
      requires from + n <= data.Length && to + n <= data.Length
      modifies data
      ensures data[to..to + n] == old(data[from..from + n])
      ensures data[..to] == old(data[..to])
    {
      forall i | 0 <= i < n {
        data[to + i] := data[from + i];
      }
    }

    method EncodeVarint(x0: nat)
      requires Valid()
      modifies this, data
      ensures Valid() && Contents() == old(Contents()) + Encode(x0)
      ensures data == old(data) || fresh(data)
      ensures len <= old(data.Length) ==>
                data == old(data) && forall j :: len <= j < data.Length ==> data[j] == old(data[j])
    {
      var x := x0;
      ghost var spare := old(len) + |Encode(x0)|;
      while x >= 128
        invariant Valid() && Contents() + Encode(x) == old(Contents()) + Encode(x0)
        invariant data == old(data) || fresh(data)
        invariant spare <= old(data.Length) ==>
                    data == old(data) && forall j :: spare <= j < data.Length ==> data[j] == old(data[j])
      {
        Append([x % 128 + 128]);
        x := x / 128;
      }
      Append([x]);
    }

    /** The length is x bytes longer than the space reserved before iMsg: move the body right. */
    method ShiftRight(iMsg: nat, x: nat)
      requires Valid() && iMsg <= len
      modifies this, data
      ensures Valid() && (data == old(data) || fresh(data))
      ensures len == old(len) + x
      ensures data[..iMsg] == old(data[..iMsg])
      ensures data[iMsg + x..len] == old(data[iMsg..len])
    {
      var lMsg := len - iMsg;
      ghost var before := Contents();
      Append(seq(x, _ => 0));
      assert data[iMsg..iMsg + lMsg] == Contents()[iMsg..iMsg + lMsg] == before[iMsg..];
      assert data[..iMsg] == Contents()[..iMsg] == before[..iMsg];
      assert data[..iMsg + x][..iMsg] == data[..iMsg];
      Move(iMsg + x, iMsg, lMsg);
      assert data[..iMsg + x][..iMsg] == data[..iMsg];
    }

    /** The length is x bytes shorter: move the body left. */
    method ShiftLeft(iMsg: nat, x: nat)
      requires Valid() && x <= iMsg <= len
      modifies this, data
      ensures Valid() && data == old(data)
      ensures len == old(len) - x
      ensures data[..iMsg - x] == old(data[..iMsg - x])
      ensures data[iMsg - x..len] == old(data[iMsg..len])
    {
      Move(iMsg - x, iMsg, len - iMsg);
      len := len - x;
    }

    /** The switch of enc_len_thing: the body follows four reserved bytes and is moved to
        follow lLen bytes. */
    method MakeRoom(iLen: nat, lLen: nat)
      requires Valid() && iLen + 4 <= len
      modifies this, data
      ensures Valid() && (data == old(data) || fresh(data))
      ensures len == old(len) - 4 + lLen
      ensures data[..iLen] == old(data[..iLen])
      ensures data[iLen + lLen..len] == old(data[iLen + 4..len])
    {
      ghost var head := data[..iLen];
      assert head == data[..iLen + 4][..iLen];
      if lLen > 4 {
        ShiftRight(iLen + 4, lLen - 4);
        assert data[..iLen] == data[..iLen + 4][..iLen];
      } else if lLen < 4 {
        assert head == data[..iLen + lLen][..iLen];
        ShiftLeft(iLen + 4, 4 - lLen);
        assert data[..iLen] == data[..iLen + lLen][..iLen];
      }
    }

    /** The second half of enc_len_thing. Four bytes were reserved at iLen and a body was
        appended after them; put the body's length in front of it, moving the body when
        the length does not take exactly four bytes. */
    method PatchLength(iLen: nat)
      requires Valid() && iLen + 4 <= len
      modifies this, data
      ensures Valid() && (data == old(data) || fresh(data))
      ensures var body := old(Contents())[iLen + 4..];
              Contents() == old(Contents())[..iLen] + Encode(|body|) + body
    {
      var lMsg := len - (iLen + 4);
      var lLen := SizeVarint(lMsg);
      ghost var body := Contents()[iLen + 4..];
      assert data[iLen + 4..len] == body && data[..iLen] == Contents()[..iLen];
      MakeRoom(iLen, lLen);
      PutLength(iLen, lLen, lMsg);
    }

    /** Encode the length in the reserved space, then bring the body back in view. */
    method PutLength(iLen: nat, lLen: nat, lMsg: nat)
      requires Valid() && len == iLen + lLen + lMsg && lLen == |Encode(lMsg)|
      modifies this, data
      ensures Valid() && data == old(data)
      ensures Contents() == old(data[..iLen]) + Encode(lMsg) + old(data[iLen + lLen..len])
    {
      ghost var body := data[iLen + lLen..len];
      len := iLen;
      EncodeVarint(lMsg);
      assert data[len..len + lMsg] == body;
      assert data[..len + lMsg] == data[..len] + data[len..len + lMsg];
      len := len + lMsg;
    }
  }
}
