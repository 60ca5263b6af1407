/**
 * One row of the batch-entry form: the details of one sample being shipped.
 *
 * Every field holds what the form's inputs produce, which is a string. The
 * only exception is `year`: the default rows put a number there
 * (`getFullYear()`), and the first edit of the year input replaces it with
 * the input's string. `Value` keeps that difference visible.
 */
module Rows {

  /** A JavaScript value stored in a row field: a string or a number. */
  datatype Value = Str(s: string) | Num(n: int)

  /** The names `handleChange` is called with, one per input of a row. */
  datatype Field =
    | StyleNumber | Season | Year | DateSent
    | SampleType | Shipper | OtherShipper | TrackingNumber

  datatype Row = Row(
    styleNumber: string,
    season: string,
    year: Value,
    dateSent: string,
    sampleType: string,
    shipper: string,
    otherShipper: string,
    trackingNumber: string)
  {
    /** `row[field]`, as a JavaScript value. */
    function Get(f: Field): Value
    {
      match f
      case StyleNumber => Str(styleNumber)
      case Season => Str(season)
      case Year => year
      case DateSent => Str(dateSent)
      case SampleType => Str(sampleType)
      case Shipper => Str(shipper)
      case OtherShipper => Str(otherShipper)
      case TrackingNumber => Str(trackingNumber)
    }

    /**
     * The row after `row[field] = v` with the string an input produced:
     * that field reads back as `v`, every other field is as it was.
     */
    function With(f: Field, v: string): (r: Row)
      ensures r.Get(f) == Str(v)
      ensures forall g :: g != f ==> r.Get(g) == Get(g)
    {
      match f
      case StyleNumber => this.(styleNumber := v)
      case Season => this.(season := v)
      case Year => this.(year := Str(v))
      case DateSent => this.(dateSent := v)
      case SampleType => this.(sampleType := v)
      case Shipper => this.(shipper := v)
      case OtherShipper => this.(otherShipper := v)
      case TrackingNumber => this.(trackingNumber := v)
    }
  }

  /**
   * The row literal the form writes at mount, on "Add Another Item" and on
   * "Submit Another Batch"; only the year differs between them.
   */
  function DefaultRow(year: int, today: string): Row
  {
    Row("", "Spring", Num(year), today, "Lab Dip", "DHL", "", "")
  }
}
