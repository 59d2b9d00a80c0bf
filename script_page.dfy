/**
  The page-level functions of public_html/script.js: the `performSearch`
  that `setupUI` defines for the search box, and the start-up check of the
  `q` parameter.  `processBang` there gives `null` (`None`) for a query
  that starts with `!` and holds no space, and then nothing happens.
*/
module ScriptPage {
  import opened Wrappers
  import opened UriComponent
  import ScriptJs
  import opened Dom

  /** `window.location.href = url`. */
  method Redirect(url: string, location: Location)
    modifies location
    ensures location.href == url && location.hash == old(location.hash)
  {
    location.href := url;
  }

  /**
    `performSearch()` inside `setupUI`: when `processBang` gives a URL (never
    empty), the query is kept in the fragment as `#q=` and its encoding, and
    the page goes to the URL; when it gives `null` the location stays as it is.
  */
  method PerformSearch(query: string, location: Location)
    modifies location
    ensures ScriptJs.ProcessBang(query).Some? ==>
      location.hash == "#q=" + Encode(query) && location.href == ScriptJs.ProcessBang(query).value
    ensures ScriptJs.ProcessBang(query).None? ==>
      location.hash == old(location.hash) && location.href == old(location.href)
  {
    var url := ScriptJs.ProcessBang(query);
    ScriptJs.ProcessBangNonEmpty(query);
    if url.Some? && url.value != "" {
      location.hash := "#q=" + Encode(query);
      Redirect(url.value, location);
    }
  }

  /**
    `initialize()`: a `q` parameter that is present and not empty is resolved
    and the page goes to the URL, if any; a missing or empty one makes the page
    wait for `DOMContentLoaded` to set up its interface (`listens`).
  */
  method Initialize(queryParam: Option<string>, location: Location) returns (listens: bool)
    modifies location
    ensures listens <==> queryParam.None? || queryParam.value == ""
    ensures location.hash == old(location.hash)
    ensures !listens && ScriptJs.ProcessBang(queryParam.value).Some? ==>
      location.href == ScriptJs.ProcessBang(queryParam.value).value
    ensures listens || ScriptJs.ProcessBang(queryParam.value).None? ==>
      location.href == old(location.href)
  {
    if queryParam.Some? && queryParam.value != "" {
      listens := false;
      var url := ScriptJs.ProcessBang(queryParam.value);
      ScriptJs.ProcessBangNonEmpty(queryParam.value);
      if url.Some? && url.value != "" {
        Redirect(url.value, location);
      }
    } else {
      listens := true;
    }
  }
}
