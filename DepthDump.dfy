/** The raw binary dump of a depth frame: a header of width and height, then
    every distance in row-major order. */
module DepthDump {
  import opened Wrappers
  import opened DepthFrames


  /** One write of saveDepthToBin: a native int of the header, or one float distance. */
  datatype Field = IntField(i: int) | FloatField(f: real)

  /** The writes for one row, left to right. */
  function DumpRow(row: seq<real>): seq<Field>
  {
    if row == [] then [] else DumpRow(row[..|row| - 1]) + [FloatField(row[|row| - 1])]
  }

  /** The writes for the rows, top to bottom. */
  function DumpRows(rows: seq<seq<real>>): seq<Field>
  {
    if rows == [] then [] else DumpRows(rows[..|rows| - 1]) + DumpRow(rows[|rows| - 1])
  }

  /** The whole dump: width, height, then the distances row by row. */
  function DepthDump(frame: DepthFrame): seq<Field>
  {
    [IntField(frame.width), IntField(frame.height)] + DumpRows(frame.rows)
  }

  /** saveDepthToBin: writes nothing when the file cannot be opened, else the
      header and every distance with y outer and x inner. */
  method SaveDepthToBin(frame: DepthFrame, fileOpened: bool) returns (written: seq<Field>)
    requires frame.Valid()
    ensures written == if fileOpened then DepthDump(frame) else []
  {
    written := [];
    if !fileOpened {
      return;
    }
    var width, height := frame.width, frame.height;
    written := written + [IntField(width)];
    written := written + [IntField(height)];
    for y := 0 to height
      invariant written == [IntField(width), IntField(height)] + DumpRows(frame.rows[..y])
    {
      for x := 0 to width
        invariant written == [IntField(width), IntField(height)] + DumpRows(frame.rows[..y]) + DumpRow(frame.rows[y][..x])
      {
        assert frame.rows[y][..x + 1][..x] == frame.rows[y][..x];
        written := written + [FloatField(frame.rows[y][x])];
      }
      assert frame.rows[..y + 1][..y] == frame.rows[..y];
      assert frame.rows[y][..width] == frame.rows[y];
    }
    assert frame.rows[..height] == frame.rows;
  }

  /** Reads one row of `count` distances back. */
  function ParseRow(fields: seq<Field>): Option<seq<real>>
  {
    if fields == [] then Some([])
    else if !fields[|fields| - 1].FloatField? then None
    else match ParseRow(fields[..|fields| - 1])
      case None => None
      case Some(init) => Some(init + [fields[|fields| - 1].f])
  }

  /** Reads `height` rows of `width` distances back, the last row last. */
  function ParseRows(fields: seq<Field>, width: nat, height: nat): Option<seq<seq<real>>>
    decreases height
  {
    if height == 0 then (if fields == [] then Some([]) else None)
    else if |fields| < width then None
    else match (ParseRows(fields[..|fields| - width], width, height - 1), ParseRow(fields[|fields| - width..]))
      case (Some(init), Some(last)) => Some(init + [last])
      case _ => None
  }

  /** A reader of the dump format: a non-negative width and height, then
      exactly width·height distances. */
  function ParseDepthDump(fields: seq<Field>): Option<DepthFrame>
  {
    if |fields| < 2 || !fields[0].IntField? || !fields[1].IntField? || fields[0].i < 0 || fields[1].i < 0 then None
    else
      var width, height := fields[0].i, fields[1].i;
      match ParseRows(fields[2..], width, height)
      case None => None
      case Some(rows) => Some(DepthFrame(width, height, rows))
  }

  lemma {:induction false} DumpRowRoundTrip(row: seq<real>)
    ensures |DumpRow(row)| == |row|
    ensures ParseRow(DumpRow(row)) == Some(row)
  {
    if row != [] {
      var init := row[..|row| - 1];
      DumpRowRoundTrip(init);
      var d := DumpRow(row);
      assert d[..|d| - 1] == DumpRow(init);
      assert init + [row[|row| - 1]] == row;
    }
  }

  lemma SplitConcat<T>(a: seq<T>, b: seq<T>)
    ensures (a + b)[..|a + b| - |b|] == a && (a + b)[|a + b| - |b|..] == b
  {
  }

  lemma SplitLast<T>(s: seq<T>)
    requires s != []
    ensures s[..|s| - 1] + [s[|s| - 1]] == s
  {
  }

  lemma MulSucc(n: nat, w: nat)
    ensures (n + 1) * w == n * w + w
  {
  }

  lemma MulMonotone(a: nat, b: nat, w: nat)
    requires a <= b
    ensures a * w <= b * w
  {
  }

  /** Every row of `rows` contributes exactly `width` fields. */
  lemma {:induction false} DumpRowsLength(rows: seq<seq<real>>, width: nat)
    requires forall y :: 0 <= y < |rows| ==> |rows[y]| == width
    ensures |DumpRows(rows)| == |rows| * width
  {
    if rows != [] {
      var init, last := rows[..|rows| - 1], rows[|rows| - 1];
      DumpRowsLength(init, width);
      DumpRowRoundTrip(last);
      MulSucc(|init|, width);
    } else {
      assert DumpRows(rows) == [];
    }
  }

  lemma {:induction false} DumpRowsRoundTrip(rows: seq<seq<real>>, width: nat)
    requires forall y :: 0 <= y < |rows| ==> |rows[y]| == width
    ensures ParseRows(DumpRows(rows), width, |rows|) == Some(rows)
  {
    if rows != [] {
      var init, last := rows[..|rows| - 1], rows[|rows| - 1];
      DumpRowsRoundTrip(init, width);
      DumpRowRoundTrip(last);
      var front, back := DumpRows(init), DumpRow(last);
      assert DumpRows(rows) == front + back;
      SplitConcat(front, back);
      SplitLast(rows);
    } else {
      assert DumpRows(rows) == [];
    }
  }

  /** The dump is lossless: reading it back gives the frame that was written. */
  lemma DepthDumpRoundTrip(frame: DepthFrame)
    requires frame.Valid()
    ensures ParseDepthDump(DepthDump(frame)) == Some(frame)
  {
    DumpRowsRoundTrip(frame.rows, frame.width);
    var d := DepthDump(frame);
    assert d[2..] == DumpRows(frame.rows);
  }

  lemma {:induction false} DumpRowAt(row: seq<real>, x: nat)
    requires x < |row|
    ensures |DumpRow(row)| == |row| && DumpRow(row)[x] == FloatField(row[x])
  {
    DumpRowRoundTrip(row);
    if x < |row| - 1 {
      DumpRowAt(row[..|row| - 1], x);
    }
  }

  lemma {:induction false} DumpRowsAt(rows: seq<seq<real>>, width: nat, y: nat, x: nat)
    requires forall yy :: 0 <= yy < |rows| ==> |rows[yy]| == width
    requires y < |rows| && x < width
    ensures |DumpRows(rows)| == |rows| * width
    ensures y * width + x < |DumpRows(rows)| && DumpRows(rows)[y * width + x] == FloatField(rows[y][x])
  {
    DumpRowsLength(rows, width);
    MulSucc(y, width);
    MulMonotone(y + 1, |rows|, width);
    var init, last := rows[..|rows| - 1], rows[|rows| - 1];
    DumpRowsLength(init, width);
    assert DumpRows(rows) == DumpRows(init) + DumpRow(last);
    if y < |init| {
      DumpRowsAt(init, width, y, x);
    } else {
      DumpRowAt(last, x);
    }
  }

  /** The dump is row-major: after the two header fields, the distance of
      pixel (x, y) is field 2 + y·width + x. */
  lemma DepthDumpIsRowMajor(frame: DepthFrame, x: nat, y: nat)
    requires frame.Valid() && x < frame.width && y < frame.height
    ensures |DepthDump(frame)| == 2 + frame.width * frame.height
    ensures DepthDump(frame)[0] == IntField(frame.width) && DepthDump(frame)[1] == IntField(frame.height)
    ensures 2 + y * frame.width + x < |DepthDump(frame)|
    ensures DepthDump(frame)[2 + y * frame.width + x] == FloatField(frame.rows[y][x])
  {
    DumpRowsAt(frame.rows, frame.width, y, x);
  }
}
