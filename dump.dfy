/** The console's rendering of a `Memory` response: the bytes in rows of 16,
    each row labelled with the address of its first byte (`{:06x}`), listing
    its bytes in hexadecimal (`{:02x} ` each) and then, after `| `, an ASCII
    gutter. */
module Dump {
  import opened Common
  import opened Numbers

  /** One printed row: its address label, the bytes it lists and its gutter. */
  datatype DumpRow = DumpRow(address: U32, bytes: seq<U8>, ascii: string)

  /** A byte in the gutter: itself when it is at least 0x20 and ASCII, a
      space otherwise. The gutter never shows a character below 0x20 or
      beyond ASCII; DEL (0x7F) is ASCII and at least 0x20, so it shows as
      itself. */
  function GutterChar(b: U8): (c: char)
    ensures ' ' <= c < '\U{80}'
    ensures c == ' ' || c as int == b
    ensures 0x20 <= b < 0x80 ==> c as int == b
  {
    if 0x20 <= b < 0x80 then b as char else ' '
  }

  function Gutter(bytes: seq<U8>): string
  {
    seq(|bytes|, i requires 0 <= i < |bytes| => GutterChar(bytes[i]))
  }

  /** The `k`-th chunk of `data.chunks(16)`: sixteen bytes, or fewer for the last. */
  function Chunk(data: seq<U8>, k: nat): seq<U8>
    requires 16 * k < |data|
  {
    data[16 * k .. Min(16 * k + 16, |data|)]
  }

  /** Row `k` of the dump of `data` read from `start`: labelled `start + 16 * k`
      (modulo 2^32, as the release build's `pos += 16` wraps), listing exactly
      the bytes of chunk `k` with their gutter. */
  function Row(start: U32, data: seq<U8>, k: nat): DumpRow
    requires 16 * k < |data|
  {
    DumpRow(Wrap32(start + 16 * k), Chunk(data, k), Gutter(Chunk(data, k)))
  }

  /** `rows` are the first rows of the dump. */
  predicate DumpPrefix(start: U32, data: seq<U8>, rows: seq<DumpRow>)
  {
    forall k :: 0 <= k < |rows| ==> 16 * k < |data| && rows[k] == Row(start, data, k)
  }

  /** `rows` is what the console prints for `Memory{start, data}`: one row per
      chunk, and row `k` is `Row(start, data, k)`. */
  predicate IsDump(start: U32, data: seq<U8>, rows: seq<DumpRow>)
  {
    |rows| == (|data| + 15) / 16 && DumpPrefix(start, data, rows)
  }

  /** The `Memory` branch of `handle_debug_resp`: walk the chunks, keep the
      running address `pos`, and build each row's gutter byte by byte. */
  method DumpMemory(start: U32, data: seq<U8>) returns (rows: seq<DumpRow>)
    ensures IsDump(start, data, rows)
  {
    rows := [];
    var pos: U32 := start;
    var k := 0;
    while 16 * k < |data|
      invariant k == |rows|
      invariant k == 0 || 16 * (k - 1) < |data|
      invariant pos == Wrap32(start + 16 * k)
      invariant DumpPrefix(start, data, rows)
    {
      var chunk := data[16 * k .. Min(16 * k + 16, |data|)];
      var ascii := GutterOf(chunk);
      DumpPrefixExtend(start, data, rows);
      rows := rows + [DumpRow(pos, chunk, ascii)];
      Wrap32Add(start + 16 * k, 16);
      pos := Wrap32(pos + 16);
      k := k + 1;
    }
  }

  /** The next row extends a prefix of the dump. */
  lemma DumpPrefixExtend(start: U32, data: seq<U8>, rows: seq<DumpRow>)
    requires DumpPrefix(start, data, rows)
    requires 16 * |rows| < |data|
    ensures DumpPrefix(start, data, rows + [Row(start, data, |rows|)])
  {
  }

  /** The gutter of one row, built a character at a time as the source
      prints it. */
  method GutterOf(chunk: seq<U8>) returns (ascii: string)
    ensures ascii == Gutter(chunk)
  {
    ascii := "";
    var i := 0;
    while i < |chunk|
      invariant 0 <= i <= |chunk|
      invariant ascii == Gutter(chunk[..i])
    {
      ascii := ascii + [GutterChar(chunk[i])];
      i := i + 1;
    }
    assert chunk[..i] == chunk;
  }

  /** All the bytes of the rows, in row order. */
  function Flatten(rows: seq<DumpRow>): seq<U8>
  {
    if rows == [] then [] else Flatten(rows[..|rows| - 1]) + rows[|rows| - 1].bytes
  }

  /** The shape of a dump: no row for no data; every row holds one to sixteen
      bytes, every row but the last exactly sixteen; and without wrap-around
      row `k` is labelled `start + 16 * k`. */
  lemma DumpShape(start: U32, data: seq<U8>, rows: seq<DumpRow>)
    requires IsDump(start, data, rows)
    ensures rows == [] <==> data == []
    ensures forall k :: 0 <= k < |rows| ==> 1 <= |rows[k].bytes| <= 16
    ensures forall k :: 0 <= k < |rows| - 1 ==> |rows[k].bytes| == 16
    ensures rows != [] ==> |rows[|rows| - 1].bytes| == |data| - 16 * (|rows| - 1)
    ensures forall k :: 0 <= k < |rows| && start + 16 * k < 0x1_0000_0000 ==> rows[k].address == start + 16 * k
  {
    forall k | 0 <= k < |rows| - 1 ensures |rows[k].bytes| == 16 {
      assert 16 * (k + 1) < |data|;
    }
  }

  /** Every byte of the data is shown exactly once, in order: the rows'
      bytes put together are the data. */
  lemma DumpCoversData(start: U32, data: seq<U8>, rows: seq<DumpRow>)
    requires IsDump(start, data, rows)
    ensures Flatten(rows) == data
  {
    FlattenPrefix(start, data, rows, |rows|);
    assert rows[..|rows|] == rows;
    assert 16 * |rows| >= |data|;
    assert data[..|data|] == data;
  }

  lemma {:induction false} FlattenPrefix(start: U32, data: seq<U8>, rows: seq<DumpRow>, j: nat)
    requires IsDump(start, data, rows)
    requires j <= |rows|
    ensures Flatten(rows[..j]) == data[..Min(16 * j, |data|)]
  {
    if j == 0 {
      assert rows[..0] == [];
    } else {
      FlattenPrefix(start, data, rows, j - 1);
      assert rows[..j][..j - 1] == rows[..j - 1];
      var lo := 16 * (j - 1);
      var hi := Min(16 * j, |data|);
      assert rows[j - 1].bytes == data[lo..hi];
      assert data[..hi] == data[..lo] + data[lo..hi];
    }
  }

  /** `{:06x}`: lower-case hexadecimal, zero-padded to at least six digits. */
  function Label(a: U32): string
  {
    var h := Hex(a);
    if |h| >= 6 then h else Zeros(6 - |h|) + h
  }

  /** `{:02x}`: a byte as two lower-case hexadecimal digits. */
  function ByteHex(b: U8): string
  {
    [DigitChar(b / 16, false), DigitChar(b % 16, false)]
  }

  /** The hexadecimal column: each byte's two digits followed by a space. */
  function HexColumn(bytes: seq<U8>): string
  {
    if bytes == [] then [] else HexColumn(bytes[..|bytes| - 1]) + ByteHex(bytes[|bytes| - 1]) + " "
  }

  /** The text of one row. */
  function RowText(row: DumpRow): string
  {
    Label(row.address) + ": " + HexColumn(row.bytes) + "| " + row.ascii
  }

  /** Where each part of a printed row sits: the label, then `: `, then
      byte `i`'s two digits at offset `3 * i` of the hex column, and the
      gutter after `| `, which starts three characters per byte past the
      hex column's start and runs to the end of the line. */
  lemma RowTextLayout(row: DumpRow)
    ensures |RowText(row)| == |Label(row.address)| + 2 + 3 * |row.bytes| + 2 + |row.ascii|
    ensures var n := |Label(row.address)|;
      && RowText(row)[..n] == Label(row.address)
      && RowText(row)[n .. n + 2] == ": "
      && (forall i :: 0 <= i < |row.bytes| ==>
            RowText(row)[n + 2 + 3 * i .. n + 2 + 3 * i + 2] == ByteHex(row.bytes[i]))
      && RowText(row)[n + 2 + 3 * |row.bytes| ..] == "| " + row.ascii
  {
    var n := |Label(row.address)|;
    var t := RowText(row);
    var col := HexColumn(row.bytes);
    HexColumnLength(row.bytes);
    assert t == Label(row.address) + ": " + col + ("| " + row.ascii);
    forall i | 0 <= i < |row.bytes|
      ensures t[n + 2 + 3 * i .. n + 2 + 3 * i + 2] == ByteHex(row.bytes[i])
    {
      HexColumnAt(row.bytes, i);
      assert t[n + 2 + 3 * i .. n + 2 + 3 * i + 2] == col[3 * i .. 3 * i + 2];
    }
  }

  /** A row label is at least six characters wide and, typed back with a `&`
      prefix, names the row's address. */
  lemma LabelRoundTrip(a: U32)
    ensures |Label(a)| >= 6
    ensures ParseNumber("&" + Label(a)) == Some(a)
  {
    var h := Hex(a);
    var k := if |h| >= 6 then 0 else 6 - |h|;
    assert Label(a) == Zeros(k) + h;
    assert ("&" + Label(a))[1..] == Label(a);
    FromStrRadixPadded(k, a, 16, false);
  }

  /** Each byte's two digits read back as that byte. */
  lemma ByteHexRoundTrip(b: U8)
    ensures FromStrRadix(ByteHex(b), 16) == Some(b)
  {
    var s := ByteHex(b);
    assert s[..1][..0] == [];
    assert s[..1] == [s[0]];
    assert DigitsValue(s[..1], 16) == Some(b / 16);
  }

  /** The hexadecimal column is three characters per byte: byte `i`'s digits
      at offset `3 * i`, then a space. */
  lemma {:induction false} HexColumnAt(bytes: seq<U8>, i: nat)
    requires i < |bytes|
    ensures |HexColumn(bytes)| == 3 * |bytes|
    ensures HexColumn(bytes)[3 * i .. 3 * i + 2] == ByteHex(bytes[i])
    ensures HexColumn(bytes)[3 * i + 2] == ' '
  {
    var front := bytes[..|bytes| - 1];
    if i < |front| {
      HexColumnAt(front, i);
      var t := HexColumn(front);
      assert HexColumn(bytes) == t + ByteHex(bytes[|bytes| - 1]) + " ";
      assert HexColumn(bytes)[3 * i .. 3 * i + 2] == t[3 * i .. 3 * i + 2];
    } else {
      HexColumnLength(front);
    }
  }

  lemma {:induction false} HexColumnLength(bytes: seq<U8>)
    ensures |HexColumn(bytes)| == 3 * |bytes|
  {
    if bytes != [] {
      HexColumnLength(bytes[..|bytes| - 1]);
    }
  }
}
