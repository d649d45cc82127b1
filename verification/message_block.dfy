// ACE_Message_Block as the sessions use it: a fixed buffer with a read and a write position.
module MessageBlocks {
  import opened Framing

  class MessageBlock {
    const data: array<Byte>
    var rd: nat
    var wr: nat

    ghost predicate Valid()
      reads this
    {
      rd <= wr <= data.Length
    }

    ghost function Contents(): seq<Byte>
      requires Valid()
      reads this, data
    {
      data[rd..wr]
    }

    constructor (size: nat)
      ensures Valid() && Contents() == [] && rd == 0 && fresh(data) && data.Length == size
    {
      data := new Byte[size];
      rd, wr := 0, 0;
    }

    function Length(): int
      reads this
    {
      wr - rd
    }

    function Space(): int
      reads this
    {
      data.Length - wr
    }

    // Moves the contents to the front of the buffer.
    method Crunch()
      requires Valid()
      modifies this, data
      ensures Valid() && Contents() == old(Contents()) && rd == 0
    {
      if rd != 0 {
        var n := wr - rd;
        for i := 0 to n
          invariant rd == old(rd) && wr == old(wr)
          invariant data[..i] == old(data[rd..rd + i])
          invariant data[rd + i..wr] == old(data[rd + i..wr])
        {
          assert data[rd + i] == data[rd + i..wr][0] == old(data[rd + i..wr])[0];
          data[i] := data[rd + i];
        }
        rd, wr := 0, n;
      }
    }

    // Appends bytes, all or, when there is no room, none.
    method Copy(s: seq<Byte>) returns (result: int)
      requires Valid()
      modifies this`wr, data
      ensures Valid() && result == if |s| <= old(Space()) then 0 else -1
      ensures Contents() == old(Contents()) + if |s| <= old(Space()) then s else []
      ensures Space() == old(Space()) - if |s| <= old(Space()) then |s| else 0
    {
      if |s| > Space() {
        return -1;
      }
      forall i | 0 <= i < |s| {
        data[wr + i] := s[i];
      }
      wr := wr + |s|;
      return 0;
    }

    // The read position moves past n bytes.
    method Skip(n: nat)
      requires Valid() && n <= wr - rd
      modifies this`rd
      ensures Valid() && Contents() == old(Contents())[n..] && rd == old(rd) + n
    {
      rd := rd + n;
    }

    method Peek(n: nat) returns (s: seq<Byte>)
      requires Valid() && n <= wr - rd
      ensures s == Contents()[..n]
    {
      s := data[rd..rd + n];
    }
  }
}
