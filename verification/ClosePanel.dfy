/**
 The panel's side of the "close the window" command: what a heartbeat, a request and a reply do to the two
 columns of a customer (chainremote-admin/lib/data/customers.ts).
 */
module ClosePanel {
  import opened Options

  /** A window ends within a day; an end far beyond that is a wrong clock and is not recorded. */
  const MAX_AHEAD_SECS: int := 25 * 3600

  /** The end of the window reported last, and the request to close it, "" when there is none. */
  datatype Row = Row(openUntil: Option<int>, request: string)

  /** A report of end `until`, 0 for no window, recorded when the panel's clock stands at `hq`. A new end
      tells of a new window, which an old request is not meant for. */
  function Recorded(row: Row, until: int, hq: int): Row {
    if until == 0 then Row(None, "")
    else if until < 0 || until > hq + MAX_AHEAD_SECS then row
    else Row(Some(until), if row.openUntil != Some(until) then "" else row.request)
  }

  /** The reports that leave a request in the queue: of the end known already, or of one not recorded. */
  predicate Keeps(row: Row, until: int, hq: int) {
    until != 0 && (row.openUntil == Some(until) || until < 0 || until > hq + MAX_AHEAD_SECS)
  }

  class CustomerRow {
    var openUntil: Option<int>
    var request: string

    constructor ()
      ensures Columns() == Row(None, "")
    {
      openUntil, request := None, "";
    }

    function Columns(): Row
      reads this
    {
      Row(openUntil, request)
    }

    /** The part of `recordHeartbeat` about the window. Beats with a cleanup result report nothing. */
    method RecordHeartbeat(report: Option<int>, hq: int)
      modifies this
      ensures Columns() ==
        if report.None? then old(Columns()) else Recorded(old(Columns()), report.value, hq)
    {
      if report.Some? && report.value >= 0 {
        var until := report.value;
        if until == 0 {
          openUntil := None;
          request := "";
        } else if until <= hq + MAX_AHEAD_SECS {
          if openUntil != Some(until) {
            request := "";
          }
          openUntil := Some(until);
        }
      }
    }

    /** `requestSchedClose`. Whether the panel knows of a window is not asked. */
    method RequestClose(v: string)
      modifies this`request
      ensures Columns() == old(Columns()).(request := v)
    {
      request := v;
    }
  }
}
