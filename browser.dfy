/** The browser's own storage: `localStorage` and `sessionStorage`, synchronous and local. */
module Browser {
  import opened Json

  /**
   * The text under `localStorage['portfolio_items']` after `JSON.parse`: either an array of
   * records, or something the migration cannot use (an empty string, text that is not JSON,
   * JSON that is not an array); all of the latter end the migration without a change.
   */
  datatype LegacyEntry = Unreadable | Parsed(items: seq<Fields>)

  class Storage {
    /** `localStorage.getItem('portfolio_items')`, `None` when the key is absent. */
    var portfolioItems: Option<LegacyEntry>
    /** `sessionStorage.getItem('visit_recorded')` is set. */
    var visitRecorded: bool

    /** A new browser session. */
    constructor (legacy: Option<LegacyEntry>)
      ensures portfolioItems == legacy && !visitRecorded
    {
      portfolioItems, visitRecorded := legacy, false;
    }
  }
}
