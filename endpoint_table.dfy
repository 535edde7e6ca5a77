/**
 * The report browser's endpoint table: one row per validated endpoint of a
 * report, a flag saying whether a row may be chosen, and the lookup of the
 * endpoint a chosen row stands for.
 */
module EndpointTable {
  import opened Wrappers
  import opened Errors
  import opened Format

  /** A validated endpoint; of its fields the table reads only the name. */
  datatype ValidatedEndpoint = ValidatedEndpoint(endpointName: string)

  /** A report; of its fields the table reads only the validated endpoints, in order. */
  datatype Report = Report(endpoints: seq<ValidatedEndpoint>)

  /** A table row: its cells, the index column first, then the endpoint name. */
  type Row = seq<string>

  const NoEndpointsRow: Row := ["", "No endpoints found"]

  const IndexOutOfRange := Error(ModelError, "Index out of range")

  /** The row shown for the endpoint at position `i`. */
  function EndpointRow(i: nat, endpoint: ValidatedEndpoint): Row {
    [NatToDecimal(i), endpoint.endpointName]
  }

  /** The rows the table shows for a report. */
  function EndpointRows(report: Report): seq<Row> {
    var eps := report.endpoints;
    if |eps| == 0 then [NoEndpointsRow]
    else seq(|eps|, i requires 0 <= i < |eps| => EndpointRow(i, eps[i]))
  }

  /** The package state of the table view that building the rows updates. */
  class TableState {
    var allowEndpointSelection: bool

    constructor ()
      ensures !allowEndpointSelection
    {
      allowEndpointSelection := false;
    }

    /** `getValidatedEndpointRows`: appends a row per endpoint, then sets the selection flag. */
    method GetValidatedEndpointRows(report: Report) returns (rows: seq<Row>)
      modifies this
      ensures rows == EndpointRows(report)
      ensures allowEndpointSelection <==> |report.endpoints| > 0
    {
      var eps := report.endpoints;
      rows := [];
      for i := 0 to |eps|
        invariant |rows| == i
        invariant forall j :: 0 <= j < i ==> rows[j] == EndpointRow(j, eps[j])
      {
        rows := rows + [EndpointRow(i, eps[i])];
      }
      allowEndpointSelection := true;
      if |rows| < 1 {
        rows := rows + [NoEndpointsRow];
        allowEndpointSelection := false;
      }
    }
  }

  /** A non-empty report gives exactly one row per endpoint, in order: (index, name). */
  lemma RowsOnePerEndpoint(report: Report)
    requires |report.endpoints| > 0
    ensures |EndpointRows(report)| == |report.endpoints|
    ensures forall i :: 0 <= i < |report.endpoints| ==>
      EndpointRows(report)[i] == [NatToDecimal(i), report.endpoints[i].endpointName]
  {
  }

  /** An empty report gives the single placeholder row. */
  lemma RowsForEmptyReport(report: Report)
    requires |report.endpoints| == 0
    ensures EndpointRows(report) == [["", "No endpoints found"]]
  {
  }

  // ---------------------------------------------------------------------
  // getSelectedValidatedEndpoint

  /** The guard as written: `index > len(report.Endpoints) || index < 0`. */
  predicate AsWrittenGuardRejects(report: Report, index: int) {
    index > |report.endpoints| || index < 0
  }

  /**
   * `getSelectedValidatedEndpoint` as written. Its guard lets
   * `index == len(report.Endpoints)` through to an index past the end, which
   * panics; the precondition is the obligation the guard leaves undischarged.
   */
  function GetSelectedValidatedEndpointAsWritten(report: Report, index: int): (r: Result<ValidatedEndpoint, Error>)
    requires index != |report.endpoints|
    ensures r.Ok? <==> 0 <= index < |report.endpoints|
    ensures r.Ok? ==> r.value == report.endpoints[index]
    ensures r.Err? ==> r.error == IndexOutOfRange
  {
    if AsWrittenGuardRejects(report, index) then Err(IndexOutOfRange) else Ok(report.endpoints[index])
  }

  /** The guard admits one index more than the report has endpoints. */
  lemma AsWrittenGuardAdmitsLength(report: Report)
    ensures !AsWrittenGuardRejects(report, |report.endpoints|)
    ensures forall index :: !AsWrittenGuardRejects(report, index) <==> 0 <= index <= |report.endpoints|
  {
  }

  /** The lookup with the guard `index >= len(report.Endpoints) || index < 0`. */
  function GetSelectedValidatedEndpoint(report: Report, index: int): (r: Result<ValidatedEndpoint, Error>)
    ensures r.Ok? <==> 0 <= index < |report.endpoints|
    ensures r.Ok? ==> r.value == report.endpoints[index]
    ensures r.Err? ==> r.error == IndexOutOfRange
  {
    if index >= |report.endpoints| || index < 0 then Err(IndexOutOfRange) else Ok(report.endpoints[index])
  }

  /** Wherever the code as written does not panic, the corrected lookup agrees with it. */
  lemma CorrectedAgreesWithAsWritten(report: Report, index: int)
    requires index != |report.endpoints|
    ensures GetSelectedValidatedEndpoint(report, index) == GetSelectedValidatedEndpointAsWritten(report, index)
  {
  }

  /**
   * Choosing a row works: for a non-empty report, reading back the index
   * cell of row `i` (as `strconv.Atoi` does) gives `i`, and the lookup at that
   * index returns the endpoint whose name the row shows. This holds for the
   * lookup as written too: a shown row never carries the index the guard
   * lets through.
   */
  lemma {:induction false} ChosenRowSelectsItsEndpoint(report: Report, i: nat)
    requires i < |report.endpoints|
    ensures AllDigits(EndpointRows(report)[i][0])
    ensures DecimalValue(EndpointRows(report)[i][0]) == i
    ensures GetSelectedValidatedEndpoint(report, DecimalValue(EndpointRows(report)[i][0])) == Ok(report.endpoints[i])
    ensures DecimalValue(EndpointRows(report)[i][0]) != |report.endpoints|
    ensures GetSelectedValidatedEndpointAsWritten(report, DecimalValue(EndpointRows(report)[i][0])) == Ok(report.endpoints[i])
    ensures report.endpoints[i].endpointName == EndpointRows(report)[i][1]
  {
    DecimalRoundTrip(i);
  }
}
