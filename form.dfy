/**
 * The state of the batch-entry form and the handlers that change it. Each
 * handler is one atomic step; the date values the form computes from the
 * clock (today's date, this year, the year three months from now) are
 * parameters.
 */
module Form {
  import opened Rows
  import opened Wire
  import JsArray

  datatype Option<T> = None | Some(value: T)

  /** How the POST of a batch ends: an ok response, a response that is not ok, or a thrown error. */
  datatype Response = Ok | NotOk | Thrown

  class SubmissionsForm {
    var factoryName: string
    var submissions: seq<Row>
    var submitted: bool
    var loading: bool

    /** The list the user edits is never empty. */
    ghost predicate Valid()
      reads this
    {
      |submissions| >= 1
    }

    /** The form as mounted: no factory, one default row for the current year, idle. */
    constructor (today: string, currentYear: int)
      ensures Valid()
      ensures factoryName == ""
      ensures submissions == [Row("", "Spring", Num(currentYear), today, "Lab Dip", "DHL", "", "")]
      ensures !submitted && !loading
    {
      factoryName := "";
      submissions := [DefaultRow(currentYear, today)];
      submitted := false;
      loading := false;
    }

    /** The factory input stores whatever the user typed. */
    method SetFactoryName(name: string)
      modifies this`factoryName
      ensures factoryName == name
    {
      factoryName := name;
    }

    /** "Add Another Item": one default row for `futureYear` is appended, the others stay as they were. */
    method AddRow(today: string, futureYear: int)
      requires Valid()
      modifies this`submissions
      ensures Valid()
      ensures |submissions| == |old(submissions)| + 1
      ensures submissions[..|old(submissions)|] == old(submissions)
      ensures submissions[|submissions| - 1]
           == Row("", "Spring", Num(futureYear), today, "Lab Dip", "DHL", "", "")
      ensures Payload(factoryName, submissions)
           == Payload(factoryName, old(submissions)) + [ToWire(factoryName, submissions[|submissions| - 1])]
    {
      var row := DefaultRow(futureYear, today);
      PayloadAfterAdd(factoryName, submissions, row);
      submissions := submissions + [row];
    }

    /**
     * The remove handler on its own: a copy of the list with `splice(index, 1)`
     * applied. It does not check that a row would remain; the button does.
     */
    method RemoveRow(index: int)
      modifies this`submissions
      ensures submissions == JsArray.SpliceOne(old(submissions), index)
      ensures 0 <= index < |old(submissions)| ==>
                submissions == old(submissions)[..index] + old(submissions)[index + 1..]
      ensures Payload(factoryName, submissions)
           == JsArray.SpliceOne(Payload(factoryName, old(submissions)), index)
    {
      var copy := submissions;
      copy := JsArray.SpliceOne(copy, index);
      PayloadAfterRemove(factoryName, submissions, index);
      submissions := copy;
    }

    /**
     * The trash button of row `index`: it is shown only while there is more
     * than one row, so with a single row nothing can be removed.
     */
    method RemoveButton(index: nat)
      requires Valid()
      requires index < |submissions|
      modifies this`submissions
      ensures Valid()
      ensures |old(submissions)| > 1 ==>
                |submissions| == |old(submissions)| - 1
                && submissions == old(submissions)[..index] + old(submissions)[index + 1..]
      ensures |old(submissions)| == 1 ==> submissions == old(submissions)
    {
      if |submissions| > 1 {
        RemoveRow(index);
      }
    }

    /**
     * `submissions[index][field] = value`. For an index with no row the
     * handler throws before storing anything (`ok` is false) and the list is
     * unchanged; otherwise only that field of that row changes.
     */
    method ChangeField(index: int, field: Field, value: string) returns (ok: bool)
      requires Valid()
      modifies this`submissions
      ensures Valid()
      ensures ok <==> 0 <= index < |old(submissions)|
      ensures |submissions| == |old(submissions)|
      ensures !ok ==> submissions == old(submissions)
      ensures ok ==> submissions == old(submissions)[index := old(submissions)[index].With(field, value)]
      ensures ok ==> submissions[index].Get(field) == Str(value)
      ensures ok ==> forall g :: g != field ==> submissions[index].Get(g) == old(submissions)[index].Get(g)
      ensures forall j :: 0 <= j < |submissions| && j != index ==> submissions[j] == old(submissions)[j]
      ensures ok ==>
                Payload(factoryName, submissions)
                == Payload(factoryName, old(submissions))[index := ToWire(factoryName, submissions[index])]
    {
      if 0 <= index < |submissions| {
        var edited := submissions[index].With(field, value);
        PayloadAfterChange(factoryName, submissions, index, field, value);
        submissions := submissions[index := edited];
        ok := true;
      } else {
        ok := false;
      }
    }

    /**
     * The synchronous first half of the submit handler: an empty factory name
     * stops it with no request; otherwise `loading` is set and the request
     * carries the payload of every row.
     */
    method BeginSubmit() returns (request: Option<seq<WireRecord>>)
      modifies this`loading
      ensures factoryName == "" ==> request == None && loading == old(loading)
      ensures factoryName != "" ==> loading
      ensures factoryName != "" ==> request.Some? && |request.value| == |submissions|
      ensures factoryName != "" ==>
                forall i :: 0 <= i < |submissions| ==> Describes(factoryName, submissions[i], request.value[i])
    {
      if factoryName == "" {
        return None;
      }
      loading := true;
      request := Some(Payload(factoryName, submissions));
    }

    /**
     * The second half, once the request has ended: only an ok response marks
     * the batch submitted, and `loading` is cleared whatever happened.
     */
    method FinishSubmit(response: Response)
      modifies this`submitted, this`loading
      ensures submitted == (old(submitted) || response == Ok)
      ensures !loading
    {
      if response == Ok {
        submitted := true;
      }
      loading := false;
    }

    /**
     * The whole submit handler as one step, with `response` the outcome of the
     * request. The rows and the factory name are never changed by it, so a
     * failed batch can be sent again as it is.
     */
    method Submit(response: Response) returns (request: Option<seq<WireRecord>>)
      requires Valid()
      modifies this`submitted, this`loading
      ensures Valid()
      ensures factoryName == "" ==>
                request == None && loading == old(loading) && submitted == old(submitted)
      ensures factoryName != "" ==>
                request == Some(Payload(factoryName, submissions))
                && !loading
                && submitted == (old(submitted) || response == Ok)
    {
      request := BeginSubmit();
      if request.Some? {
        assert request.value == Payload(factoryName, submissions) by {
          forall i | 0 <= i < |submissions|
            ensures request.value[i] == Payload(factoryName, submissions)[i]
          {
            DescribesExactly(factoryName, submissions[i], request.value[i]);
            DescribesExactly(factoryName, submissions[i], Payload(factoryName, submissions)[i]);
          }
        }
        FinishSubmit(response);
      }
    }

    /** "Submit Another Batch": back to one default row for `futureYear`, no factory, not submitted. */
    method SubmitAnotherBatch(today: string, futureYear: int)
      modifies this`submitted, this`submissions, this`factoryName
      ensures Valid()
      ensures !submitted
      ensures factoryName == ""
      ensures submissions == [Row("", "Spring", Num(futureYear), today, "Lab Dip", "DHL", "", "")]
    {
      submitted := false;
      submissions := [DefaultRow(futureYear, today)];
      factoryName := "";
    }
  }

  /**
   * One batch from mount to success: factory "Acme Mills", style "ST-1",
   * tracking "TRK1" on the only row, an ok response. The request holds one
   * record with those values and status `New`, and the form is submitted.
   */
  method AcmeMillsBatch(today: string, currentYear: int) returns (request: Option<seq<WireRecord>>, submitted: bool)
    ensures request == Some([WireRecord("Acme Mills", "ST-1", "Spring", Num(currentYear), today,
                                        "Lab Dip", "DHL", "TRK1", "New")])
    ensures submitted
  {
    var form := new SubmissionsForm(today, currentYear);
    form.SetFactoryName("Acme Mills");
    var ok := form.ChangeField(0, StyleNumber, "ST-1");
    ok := form.ChangeField(0, TrackingNumber, "TRK1");
    var row := Row("ST-1", "Spring", Num(currentYear), today, "Lab Dip", "DHL", "", "TRK1");
    assert form.submissions == [row];
    request := form.Submit(Ok);
    assert Payload("Acme Mills", [row]) == [ToWire("Acme Mills", row)];
    submitted := form.submitted;
  }
}
