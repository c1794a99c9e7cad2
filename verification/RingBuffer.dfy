/** The ring buffer whose N bytes are mapped twice in a row, so that one copy can
    cross the wrap. Only read_advance renormalises the two offsets. */
module RingBuffer {
  import opened Bytes

  /** A snapshot of the ring: the N physical bytes and the two offsets into the
      2N-byte window. */
  datatype Ring = Ring(cells: seq<byte>, read: nat, write: nat) {
    predicate Valid() {
      && 0 < |cells|
      && read < |cells|
      && read <= write <= read + |cells|
    }

    /** The physical byte behind an address of the doubled window. */
    function Cell(address: nat): (c: nat)
      requires address < 2 * |cells|
      ensures c < |cells|
    {
      if address < |cells| then address else address - |cells|
    }

    function Count(): nat
      requires Valid()
    {
      write - read
    }

    function Free(): nat
      requires Valid()
    {
      |cells| - (write - read)
    }

    /** The unread bytes, oldest first. */
    function Contents(): (s: seq<byte>)
      requires Valid()
      ensures |s| == Count()
    {
      seq(write - read, k requires 0 <= k < write - read => cells[Cell(read + k)])
    }

    /** One byte of a copy into the free part, `k` bytes past the write address. */
    function Store(k: nat, b: byte): Ring
      requires Valid() && k < Free()
    {
      this.(cells := cells[Cell(write + k) := b])
    }

    function WriteAdvance(n: nat): (r: Ring)
      requires Valid() && n <= Free()
      ensures r.Valid()
    {
      this.(write := write + n)
    }

    function ReadAdvance(n: nat): (r: Ring)
      requires Valid() && n <= Count()
      ensures r.Valid()
    {
      if read + n >= |cells| then
        this.(read := read + n - |cells|, write := write - |cells|)
      else
        this.(read := read + n)
    }

    function Clear(): Ring {
      this.(read := 0, write := 0)
    }

    /** The `k` bytes at the write address are the start of `data`. */
    ghost predicate Holds(data: seq<byte>, k: nat)
      requires Valid()
    {
      && k <= |data| <= Free()
      && forall i :: 0 <= i < k ==> cells[Cell(write + i)] == data[i]
    }
  }

  /** Under the two-fold mapping, distinct addresses less than N apart are
      distinct cells: a permitted copy never touches an unread byte. */
  lemma CellsApart(r: Ring, a: nat, b: nat)
    requires a < b < 2 * |r.cells| && b - a < |r.cells|
    ensures r.Cell(a) != r.Cell(b)
  {
  }

  lemma StoreKeepsContents(r: Ring, k: nat, b: byte)
    requires r.Valid() && k < r.Free()
    ensures r.write + k < 2 * |r.cells|
    ensures r.Store(k, b).Valid()
    ensures r.Store(k, b).Contents() == r.Contents()
  {
    var s := r.Store(k, b);
    forall i | 0 <= i < r.Count()
      ensures s.Contents()[i] == r.Contents()[i]
    {
      CellsApart(r, r.read + i, r.write + k);
      assert s.Cell(s.read + i) == r.Cell(r.read + i);
      assert s.Contents()[i] == s.cells[s.Cell(s.read + i)];
    }
  }

  lemma StoreExtends(r: Ring, data: seq<byte>, k: nat)
    requires r.Valid() && k < |data| && r.Holds(data, k)
    ensures r.Store(k, data[k]).Valid()
    ensures r.Store(k, data[k]).Holds(data, k + 1)
  {
    var s := r.Store(k, data[k]);
    forall i | 0 <= i < k + 1
      ensures s.cells[s.Cell(s.write + i)] == data[i]
    {
      if i < k { CellsApart(r, r.write + i, r.write + k); }
    }
  }

  /** Writing refines appending. */
  lemma WriteAppends(r: Ring, data: seq<byte>)
    requires r.Valid() && r.Holds(data, |data|)
    ensures r.WriteAdvance(|data|).Contents() == r.Contents() + data
  {
    var s := r.WriteAdvance(|data|);
    forall i | 0 <= i < s.Count()
      ensures s.Contents()[i] == (r.Contents() + data)[i]
    {
      assert s.Contents()[i] == r.cells[r.Cell(r.read + i)];
      if i >= r.Count() {
        var j := i - r.Count();
        assert r.cells[r.Cell(r.write + j)] == data[j];
      }
    }
  }

  /** Reading refines dropping a prefix; the one conditional subtraction leaves
      every unread byte in place. */
  lemma ReadDrops(r: Ring, n: nat)
    requires r.Valid() && n <= r.Count()
    ensures r.ReadAdvance(n).Contents() == r.Contents()[n..]
  {
    var s := r.ReadAdvance(n);
    forall i | 0 <= i < s.Count()
      ensures s.Contents()[i] == r.Contents()[n..][i]
    {
      assert s.Cell(s.read + i) == r.Cell(r.read + n + i);
    }
  }

  /** The doubled mapping and the two offsets, changed in place. */
  class MirroredRing {
    var cells: array<byte>
    var readOffset: nat
    var writeOffset: nat

    function View(): Ring
      reads this, cells
    {
      Ring(cells[..], readOffset, writeOffset)
    }

    constructor (order: nat)
      ensures fresh(cells) && cells.Length == Pow2(order)
      ensures View().Valid() && View().Contents() == []
    {
      var capacity := Pow2(order);
      cells := new byte[capacity](_ => 0);
      readOffset, writeOffset := 0, 0;
    }

    method CountBytes() returns (count: nat)
      requires View().Valid()
      ensures count == |View().Contents()|
    {
      count := writeOffset - readOffset;
    }

    method CountFreeBytes() returns (count: nat)
      requires View().Valid()
      ensures count + |View().Contents()| == cells.Length
    {
      var used := CountBytes();
      count := cells.Length - used;
    }

    method WriteAdvance(n: nat)
      requires View().Valid() && n <= View().Free()
      modifies this`writeOffset
      ensures View() == old(View()).WriteAdvance(n)
    {
      writeOffset := writeOffset + n;
    }

    method ReadAdvance(n: nat)
      requires View().Valid() && n <= View().Count()
      modifies this`readOffset, this`writeOffset
      ensures View() == old(View()).ReadAdvance(n)
    {
      readOffset := readOffset + n;
      if readOffset >= cells.Length {
        readOffset := readOffset - cells.Length;
        writeOffset := writeOffset - cells.Length;
      }
    }

    method Clear()
      requires View().Valid()
      modifies this`readOffset, this`writeOffset
      ensures View() == old(View()).Clear()
      ensures View().Valid() && View().Contents() == []
    {
      writeOffset := 0;
      readOffset := 0;
    }

    /** memcpy from the read address. */
    method CopyOut(size: nat) returns (out: seq<byte>)
      requires View().Valid() && size <= View().Count()
      ensures out == View().Contents()[..size]
    {
      out := [];
      var k := 0;
      while k < size
        invariant 0 <= k <= size
        invariant out == View().Contents()[..k]
      {
        out := out + [cells[View().Cell(readOffset + k)]];
        k := k + 1;
      }
    }

    /** memcpy to the write address. */
    method CopyIn(data: seq<byte>)
      requires View().Valid() && |data| <= View().Free()
      modifies cells
      ensures View().Valid() && View().Holds(data, |data|)
      ensures View().Contents() == old(View().Contents())
    {
      var k := 0;
      while k < |data|
        invariant 0 <= k <= |data|
        invariant View().Valid() && View().Holds(data, k)
        invariant View().Contents() == old(View().Contents())
      {
        ghost var before := View();
        StoreKeepsContents(before, k, data[k]);
        StoreExtends(before, data, k);
        cells[View().Cell(writeOffset + k)] := data[k];
        assert View() == before.Store(k, data[k]);
        k := k + 1;
      }
    }

    /** The critical section of read_buffer: false means it would sleep. */
    method TryRead(size: nat) returns (ok: bool, out: seq<byte>)
      requires View().Valid()
      modifies this`readOffset, this`writeOffset
      ensures View().Valid()
      ensures ok <==> size <= |old(View().Contents())|
      ensures ok ==> out + View().Contents() == old(View().Contents()) && |out| == size
      ensures !ok ==> out == [] && View() == old(View())
    {
      out := [];
      var count := CountBytes();
      ok := count >= size;
      if ok {
        out := CopyOut(size);
        ReadDrops(View(), size);
        ReadAdvance(size);
      }
    }

    /** The critical section of write_buffer: false means it would sleep. */
    method TryWrite(data: seq<byte>) returns (ok: bool)
      requires View().Valid()
      modifies this`writeOffset, cells
      ensures View().Valid()
      ensures ok <==> |data| + |old(View().Contents())| <= cells.Length
      ensures View().Contents() == if ok then old(View().Contents()) + data else old(View().Contents())
      ensures !ok ==> View() == old(View())
    {
      var free := CountFreeBytes();
      ok := free >= |data|;
      if ok {
        CopyIn(data);
        WriteAppends(View(), data);
        WriteAdvance(|data|);
      }
    }
  }
}
