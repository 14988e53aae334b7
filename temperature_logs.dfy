/**
 * The historical log table (app/components/temperatureLogs.tsx): one row per
 * log, the "Page x of y" caption and the previous/next buttons, whose
 * `disabled` tests are equalities and whose clicks ask the panel for the
 * neighbouring page.
 */
module TemperatureLogs {
  import opened Wrappers
  import opened Types
  import opened Decimal

  /** The caption under the table. */
  function PageLabel(currentPage: int, totalPages: int): (caption: string)
    ensures exists shown, total ::
              && caption == "Page " + shown + " of " + total
              && ParseInt(shown) == Some(currentPage + 1)
              && ParseInt(total) == Some(totalPages)
  {
    var shown, total := IntToString(currentPage + 1), IntToString(totalPages);
    IntToStringRoundTrip(currentPage + 1);
    IntToStringRoundTrip(totalPages);
    "Page " + shown + " of " + total
  }

  /** The caption of an empty result: the first page of none. */
  lemma PageLabelOfEmptyResult()
    ensures PageLabel(0, 0) == "Page 1 of 0"
  {
    assert IntToString(1) == "1" && IntToString(0) == "0";
  }

  /** `currentPage === 0`. */
  predicate PrevDisabled(currentPage: int) {
    currentPage == 0
  }

  /** `currentPage === totalPages - 1`. */
  predicate NextDisabled(currentPage: int, totalPages: int) {
    currentPage == totalPages - 1
  }

  /** The page a click on "previous" asks for; none while the button is disabled. */
  function PrevClick(currentPage: int): (r: Option<int>)
    ensures r.Some? <==> currentPage != 0
    ensures r.Some? ==> r.value == currentPage - 1
  {
    if PrevDisabled(currentPage) then None else Some(currentPage - 1)
  }

  /** The page a click on "next" asks for; none while the button is disabled. */
  function NextClick(currentPage: int, totalPages: int): (r: Option<int>)
    ensures r.Some? <==> currentPage != totalPages - 1
    ensures r.Some? ==> r.value == currentPage + 1
  {
    if NextDisabled(currentPage, totalPages) then None else Some(currentPage + 1)
  }

  /** From a page within range, every enabled click asks for a page within range. */
  lemma ClicksStayInRange(currentPage: int, totalPages: int)
    requires 0 <= currentPage <= totalPages - 1
    ensures PrevClick(currentPage).Some? ==> 0 <= PrevClick(currentPage).value <= totalPages - 1
    ensures NextClick(currentPage, totalPages).Some? ==> 0 <= NextClick(currentPage, totalPages).value <= totalPages - 1
  {
  }

  /**
   * The equality test does not stop "next" past the last page: from a page
   * at or beyond the page count (page 0 of an empty result, say) it stays
   * enabled and asks for a page that does not exist.
   */
  lemma NextEscapesRange(currentPage: int, totalPages: int)
    requires currentPage >= totalPages
    ensures !NextDisabled(currentPage, totalPages)
    ensures NextClick(currentPage, totalPages) == Some(currentPage + 1) && currentPage + 1 > totalPages - 1
  {
  }

  /** A rendered row; the timestamp is kept as received (its locale formatting is not part of this model). */
  datatype Row = Row(key: int, timestamp: string, value: real, device: string, master: string, location: string)

  function RowOf(log: TemperatureLog): Row {
    Row(log.id, log.timestamp, log.value1, log.deviceName, log.masterName, log.masterLocation)
  }

  /** `data.map(...)`: one row per log, in the order received. */
  function Rows(data: seq<TemperatureLog>): (rows: seq<Row>)
    ensures |rows| == |data|
    ensures forall i :: 0 <= i < |data| ==> rows[i].key == data[i].id && rows[i].timestamp == data[i].timestamp && rows[i].value == data[i].value1
    ensures forall i :: 0 <= i < |data| ==> rows[i].device == data[i].deviceName && rows[i].master == data[i].masterName && rows[i].location == data[i].masterLocation
  {
    if data == [] then [] else [RowOf(data[0])] + Rows(data[1..])
  }
}
