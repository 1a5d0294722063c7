/**
 `vector_downward`: one allocation that holds two byte vectors, data growing down from the top and
 scratch growing up from the bottom.

 The class invariant keeps buf <= scratch <= cur <= buf + reserved; each operation is specified by what
 it does to the two sequences `Data()` and `Scratch()`.
 */
module FlatVector {
  import opened Bytes

  method ZeroInto(dst: array<Byte>, at: nat, n: nat)
    requires at + n <= dst.Length
    modifies dst
    ensures dst[..] == Overwrite(old(dst[..]), at, Zeros(n))
  {
    ghost var before := dst[..];
    assert before == Overwrite(before, at, Zeros(0));
    for i := 0 to n
      invariant dst[..] == Overwrite(before, at, Zeros(i))
    {
      OverwriteMore(before, at, i);
      dst[at + i] := 0;
    }
  }

  /** At least half as much again, at least `len` more, rounded up. */
  function NewReserved(reserved: nat, len: nat, initialSize: nat, minAlign: nat): (n: nat)
    requires minAlign > 0
    ensures n >= reserved + len && n % minAlign == 0
    ensures n >= reserved + if reserved != 0 then reserved / 2 else initialSize
    ensures n < reserved + (if reserved != 0 then reserved / 2 else initialSize) + len + minAlign
  {
    var growth := if reserved != 0 then reserved / 2 else initialSize;
    var n := reserved + (if len > growth then len else growth);
    n + PaddingBytes(n, minAlign)
  }

  /** `memcpy_downward`: the used ends of the old block go to the same ends of the new one. */
  method MemcpyDownward(src: array<Byte>, dst: array<Byte>, inUseBack: nat, inUseFront: nat)
    requires inUseFront + inUseBack <= src.Length <= dst.Length && src != dst
    modifies dst
    ensures dst[..][dst.Length - inUseBack..] == src[..][src.Length - inUseBack..]
    ensures dst[..][..inUseFront] == src[..][..inUseFront]
  {
    forall i | 0 <= i < inUseBack { dst[dst.Length - inUseBack + i] := src[src.Length - inUseBack + i]; }
    forall i | 0 <= i < inUseFront { dst[i] := src[i]; }
  }

  class VectorDownward {
    var mem: array?<Byte>
    var reserved: nat
    var cur: nat
    var scratch: nat
    const initialSize: nat
    const minAlign: nat

    ghost predicate Valid()
      reads this
    {
      && reserved == (if mem == null then 0 else mem.Length)
      && scratch <= cur <= reserved
      && minAlign > 0
    }

    ghost function Data(): seq<Byte>
      reads this, mem
      requires Valid()
    {
      if mem == null then [] else mem[..][cur..]
    }

    ghost function Scratch(): seq<Byte>
      reads this, mem
      requires Valid()
    {
      if mem == null then [] else mem[..][..scratch]
    }

    constructor (initialSize: nat, minAlign: nat)
      requires minAlign > 0
      ensures Valid() && Data() == [] && Scratch() == []
    {
      this.initialSize, this.minAlign := initialSize, minAlign;
      mem, reserved, cur, scratch := null, 0, 0, 0;
    }

    function Size(): nat
      reads this, mem
      requires Valid()
      ensures Size() == |Data()|
    {
      reserved - cur
    }

    /** Both contents move to a larger block, each to its own end; the gap grows by at least `len`. */
    method Reallocate(len: nat)
      requires Valid()
      modifies this
      ensures Valid() && mem != null && fresh(mem)
      ensures Data() == old(Data()) && Scratch() == old(Scratch())
      ensures cur - scratch >= old(cur - scratch) + len
      ensures reserved % minAlign == 0
    {
      hide NewReserved;
      var oldSize, oldScratchSize := reserved - cur, scratch;
      var newReserved := NewReserved(reserved, len, initialSize, minAlign);
      var newMem := new Byte[newReserved](_ => 0);
      if mem != null {
        MemcpyDownward(mem, newMem, oldSize, oldScratchSize);
      }
      mem, reserved := newMem, newReserved;
      cur, scratch := newReserved - oldSize, oldScratchSize;
    }

    method EnsureSpace(len: nat)
      requires Valid()
      modifies this
      ensures Valid() && (mem == old(mem) || (mem != null && fresh(mem)))
      ensures Data() == old(Data()) && Scratch() == old(Scratch())
      ensures len <= cur - scratch
    {
      if len > cur - scratch { Reallocate(len); }
    }

    /** Room for `len` more bytes of data, with unspecified contents. */
    method MakeSpace(len: nat)
      requires Valid()
      modifies this
      ensures Valid() && (mem == old(mem) || (mem != null && fresh(mem)))
      ensures |Data()| == |old(Data())| + len && Data()[len..] == old(Data())
      ensures Scratch() == old(Scratch())
      ensures len > 0 ==> mem != null
    {
      EnsureSpace(len);
      cur := cur - len;
    }

    method Push(bytes: seq<Byte>)
      requires Valid()
      modifies this, mem
      ensures Valid() && (mem == old(mem) || (mem != null && fresh(mem)))
      ensures Data() == bytes + old(Data()) && Scratch() == old(Scratch())
    {
      if |bytes| > 0 {
        MakeSpace(|bytes|);
        ghost var before := mem[..];
        OverwriteBoth(before, cur, bytes, cur, scratch);
        CopyInto(mem, cur, bytes);
      } else {
        assert bytes + Data() == Data();
      }
    }

    method Fill(zeroPadBytes: nat)
      requires Valid()
      modifies this, mem
      ensures Valid() && (mem == old(mem) || (mem != null && fresh(mem)))
      ensures Data() == Zeros(zeroPadBytes) + old(Data()) && Scratch() == old(Scratch())
    {
      MakeSpace(zeroPadBytes);
      if zeroPadBytes > 0 {
        OverwriteBoth(mem[..], cur, Zeros(zeroPadBytes), cur, scratch);
        ZeroInto(mem, cur, zeroPadBytes);
      } else {
        assert Zeros(0) + Data() == Data();
      }
    }

    method ScratchPush(bytes: seq<Byte>)
      requires Valid()
      modifies this, mem
      ensures Valid() && (mem == old(mem) || (mem != null && fresh(mem)))
      ensures Data() == old(Data()) && Scratch() == old(Scratch()) + bytes
    {
      EnsureSpace(|bytes|);
      if mem == null {
        assert Scratch() == old(Scratch()) + bytes;
        return;
      }
      ghost var before := mem[..];
      OverwriteBoth(before, scratch, bytes, cur, scratch);
      CopyInto(mem, scratch, bytes);
      scratch := scratch + |bytes|;
    }

    /** `n` bytes at `data_at(offset)`. */
    method DataAt(offset: nat, n: nat) returns (bytes: Str)
      requires Valid() && n <= offset <= |Data()|
      ensures bytes == Data()[|Data()| - offset..|Data()| - offset + n]
    {
      if mem == null { return []; }
      bytes := mem[reserved - offset..reserved - offset + n];
      SliceOfTail(mem[..], cur, reserved - offset, n);
    }

    method ScratchAt(pos: nat, n: nat) returns (bytes: Str)
      requires Valid() && pos + n <= |Scratch()|
      ensures bytes == Scratch()[pos..pos + n]
    {
      if mem == null { return []; }
      bytes := mem[pos..pos + n];
      assert mem[..][..scratch][pos..pos + n] == mem[..][pos..pos + n];
    }

    method Pop(bytesToRemove: nat)
      requires Valid() && bytesToRemove <= |Data()|
      modifies this`cur
      ensures Valid() && Data() == old(Data())[bytesToRemove..] && Scratch() == old(Scratch())
    {
      cur := cur + bytesToRemove;
    }

    method ScratchPop(bytesToRemove: nat)
      requires Valid() && bytesToRemove <= |Scratch()|
      modifies this`scratch
      ensures Valid() && Data() == old(Data()) && Scratch() == old(Scratch())[..|old(Scratch())| - bytesToRemove]
    {
      scratch := scratch - bytesToRemove;
    }

    method ClearScratch()
      requires Valid()
      modifies this`scratch
      ensures Valid() && Data() == old(Data()) && Scratch() == []
    {
      scratch := 0;
    }

    method Clear()
      requires Valid()
      modifies this`cur, this`scratch
      ensures Valid() && Data() == [] && Scratch() == []
    {
      cur := reserved;
      scratch := 0;
    }

    /** `WriteScalar` at `data_at(offset)`: offsets count from the end, so they survive growth. */
    method WriteAt(offset: nat, bytes: seq<Byte>)
      requires Valid() && |bytes| <= offset <= |Data()|
      modifies mem
      ensures Valid() && Scratch() == old(Scratch())
      ensures Data() == Overwrite(old(Data()), |old(Data())| - offset, bytes)
    {
      if mem != null {
        OverwriteInside(mem[..], reserved - offset, bytes, cur, scratch);
        CopyInto(mem, reserved - offset, bytes);
      }
    }
  }

  /** Writing at the start of the data, or at the end of the scratch, touches nothing else. */
  lemma OverwriteBoth(s: seq<Byte>, pos: nat, bytes: seq<Byte>, cur: nat, scratch: nat)
    requires pos + |bytes| <= |s| && scratch <= cur <= |s|
    ensures pos == cur ==> Overwrite(s, pos, bytes)[cur..] == bytes + s[cur..][|bytes|..]
    ensures pos >= scratch ==> Overwrite(s, pos, bytes)[..scratch] == s[..scratch]
    ensures pos == scratch ==> Overwrite(s, pos, bytes)[..scratch + |bytes|] == s[..scratch] + bytes
    ensures pos + |bytes| <= cur ==> Overwrite(s, pos, bytes)[cur..] == s[cur..]
  {
  }

  lemma SliceOfTail(s: Str, cur: nat, pos: nat, n: nat)
    requires cur <= pos && pos + n <= |s|
    ensures s[pos..pos + n] == s[cur..][pos - cur..pos - cur + n]
  {
  }

  lemma OverwriteInside(s: seq<Byte>, pos: nat, bytes: seq<Byte>, cur: nat, scratch: nat)
    requires pos + |bytes| <= |s| && scratch <= cur <= pos
    ensures Overwrite(s, pos, bytes)[..scratch] == s[..scratch]
    ensures Overwrite(s, pos, bytes)[cur..] == Overwrite(s[cur..], pos - cur, bytes)
  {
  }

  lemma OverwriteMore(s: seq<Byte>, pos: nat, i: nat)
    requires pos + i < |s|
    ensures Overwrite(s, pos, Zeros(i))[pos + i := 0] == Overwrite(s, pos, Zeros(i + 1))
  {
    assert Zeros(i + 1) == Zeros(i) + [0];
  }
}
