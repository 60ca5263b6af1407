/**
 * The batch payload built by the submit handler: every row becomes one wire
 * record that carries the shared factory name, the row's details with the
 * carrier resolved, and the status `New`.
 */
module Wire {
  import opened Rows
  import JsArray

  /** The shipper choice whose real carrier name is typed into `otherShipper`. */
  const OtherShipperChoice := "Other"

  /** The status every new submission is posted with. */
  const NewStatus := "New"

  datatype WireRecord = WireRecord(
    factory: string,
    styleNumber: string,
    season: string,
    year: Value,
    dateSent: string,
    sampleType: string,
    shipper: string,
    trackingNumber: string,
    status: string)

  /** The mapping applied to each row of the batch. */
  function ToWire(factory: string, row: Row): WireRecord
  {
    WireRecord(
      factory,
      row.styleNumber,
      row.season,
      row.year,
      row.dateSent,
      row.sampleType,
      if row.shipper == OtherShipperChoice then row.otherShipper else row.shipper,
      row.trackingNumber,
      NewStatus)
  }

  /**
   * What a wire record for `row` must say, field by field: the shared factory
   * name, the row's details copied unchanged, the free-text carrier in place
   * of the choice `Other` (and the chosen carrier otherwise), status `New`.
   */
  ghost predicate Describes(factory: string, row: Row, rec: WireRecord)
  {
    && rec.factory == factory
    && rec.styleNumber == row.styleNumber
    && rec.season == row.season
    && rec.year == row.year
    && rec.dateSent == row.dateSent
    && rec.sampleType == row.sampleType
    && (row.shipper == OtherShipperChoice ==> rec.shipper == row.otherShipper)
    && (row.shipper != OtherShipperChoice ==> rec.shipper == row.shipper)
    && rec.trackingNumber == row.trackingNumber
    && rec.status == NewStatus
  }

  /** The field-by-field description fixes the record: it holds of the mapped row and of nothing else. */
  lemma DescribesExactly(factory: string, row: Row, rec: WireRecord)
    ensures Describes(factory, row, rec) <==> rec == ToWire(factory, row)
  {
  }

  /**
   * The payload: one record per row, in the rows' order, each described by
   * its row and the shared factory name.
   */
  function Payload(factory: string, rows: seq<Row>): (p: seq<WireRecord>)
    ensures |p| == |rows|
    ensures forall i :: 0 <= i < |rows| ==> Describes(factory, rows[i], p[i])
  {
    if rows == [] then [] else [ToWire(factory, rows[0])] + Payload(factory, rows[1..])
  }

  /** The payload of two lists of rows joined is the two payloads joined. */
  lemma {:induction false} PayloadAppend(factory: string, a: seq<Row>, b: seq<Row>)
    ensures Payload(factory, a + b) == Payload(factory, a) + Payload(factory, b)
  {
    if a == [] {
      assert a + b == b;
    } else {
      assert (a + b)[1..] == a[1..] + b;
      PayloadAppend(factory, a[1..], b);
    }
  }

  /** Adding a row adds exactly its record to the end of the payload. */
  lemma PayloadAfterAdd(factory: string, rows: seq<Row>, row: Row)
    ensures Payload(factory, rows + [row]) == Payload(factory, rows) + [ToWire(factory, row)]
  {
    PayloadAppend(factory, rows, [row]);
  }

  /** Removing a row removes exactly its record: the payload is spliced the way the rows were. */
  lemma PayloadAfterRemove(factory: string, rows: seq<Row>, index: int)
    ensures Payload(factory, JsArray.SpliceOne(rows, index))
         == JsArray.SpliceOne(Payload(factory, rows), index)
  {
    var k := JsArray.SpliceStart(|rows|, index);
    if k < |rows| {
      var p := Payload(factory, rows);
      var l := Payload(factory, JsArray.SpliceOne(rows, index));
      var r := JsArray.SpliceOne(p, index);
      forall j | 0 <= j < |l|
        ensures l[j] == r[j]
      {
        var src := if j < k then j else j + 1;
        DescribesExactly(factory, rows[src], l[j]);
        DescribesExactly(factory, rows[src], p[src]);
      }
    }
  }

  /**
   * Editing one field of row `i` changes only record `i` of the payload, and
   * that record becomes the mapping of the edited row.
   */
  lemma PayloadAfterChange(factory: string, rows: seq<Row>, i: nat, f: Field, v: string)
    requires i < |rows|
    ensures Payload(factory, rows[i := rows[i].With(f, v)])
         == Payload(factory, rows)[i := ToWire(factory, rows[i].With(f, v))]
  {
    var edited := rows[i := rows[i].With(f, v)];
    var l := Payload(factory, edited);
    var r := Payload(factory, rows)[i := ToWire(factory, rows[i].With(f, v))];
    forall j | 0 <= j < |l|
      ensures l[j] == r[j]
    {
      DescribesExactly(factory, edited[j], l[j]);
      DescribesExactly(factory, rows[j], Payload(factory, rows)[j]);
    }
  }

  /** For a row whose shipper is not `Other`, the free-text carrier has no effect on its record. */
  lemma OtherShipperIgnored(factory: string, row: Row, v: string)
    requires row.shipper != OtherShipperChoice
    ensures ToWire(factory, row.With(OtherShipper, v)) == ToWire(factory, row)
  {
  }

  /**
   * The backend sees the literal `Other` as a carrier only when the user chose
   * `Other` and then typed `Other` as the carrier's name.
   */
  lemma OtherForwardedOnlyWhenTyped(factory: string, row: Row)
    ensures ToWire(factory, row).shipper == OtherShipperChoice
        <==> row.shipper == OtherShipperChoice && row.otherShipper == OtherShipperChoice
  {
  }
}
