/**
  The page-level functions of public_html/search.js: running a search from
  the search box, the start-up check of the `q` parameter, the dark-mode
  and settings-panel toggles, and saving the default bang chosen in the
  settings panel.  Each changes the browser objects of module Dom in place.
*/
module SearchPage {
  import opened Wrappers
  import opened UriComponent
  import opened Bangs
  import opened SearchJs
  import opened Dom

  const DarkMode: string := "dark-mode"
  const LightMode: string := "light-mode"

  /** The `aria-hidden` attribute of the settings panel. */
  const AriaHidden: string := "aria-hidden"

  /** The `name` of the settings panel's radio buttons. */
  const RadioName: string := "default-bang"

  /** The class the save message shows itself with. */
  const Visible: string := "visible"

  /** What `windowObj.localStorage` gives `getDefaultBang`: nothing when there is no storage. */
  function StorageOf(storage: LocalStorage?): (s: Storage)
    reads storage
    ensures s.None? <==> storage == null
    ensures s.Some? ==> s.value == storage.items
  {
    if storage == null then None else Some(storage.items)
  }

  // ---------------------------------------------------------------------------
  // performSearch and initialize
  // ---------------------------------------------------------------------------

  /** `redirect(url)`: assigning `location.href` sends the page to `url`. */
  method Redirect(url: string, location: Location)
    modifies location
    ensures location.href == url && location.hash == old(location.hash)
  {
    location.href := url;
  }

  /**
    What `performSearch` does with the outcome `r` of `processBang`: a URL,
    never empty, is followed after the query is kept in the fragment as `#q=`
    and its encoding; an exception leaves `performSearch` (in `thrown`) with the
    location as before.
  */
  method Follow(r: Result<string, Thrown>, query: string, location: Location) returns (thrown: Option<Thrown>)
    requires r.Success? ==> r.value != ""
    modifies location
    ensures r.Success? ==> thrown == None && location.hash == "#q=" + Encode(query) && location.href == r.value
    ensures r.Failure? ==> thrown == Some(r.error) && location.hash == old(location.hash) && location.href == old(location.href)
  {
    if r.Failure? {
      return Some(r.error);
    }
    var url := r.value;
    if url != "" {
      location.hash := "#q=" + Encode(query);
      Redirect(url, location);
    }
    return None;
  }

  /** `performSearch(query)`: resolve the query with the stored default bang and follow the outcome. */
  method PerformSearch(query: string, location: Location, storage: LocalStorage?) returns (thrown: Option<Thrown>)
    modifies location
    ensures ProcessBang(query, old(StorageOf(storage))).Success? ==>
      && thrown == None
      && location.hash == "#q=" + Encode(query)
      && location.href == ProcessBang(query, old(StorageOf(storage))).value
    ensures ProcessBang(query, old(StorageOf(storage))).Failure? ==>
      && thrown == Some(ProcessBang(query, old(StorageOf(storage))).error)
      && location.hash == old(location.hash)
      && location.href == old(location.href)
  {
    var r := ProcessBang(query, StorageOf(storage));
    ProcessBangNonEmpty(query, StorageOf(storage));
    thrown := Follow(r, query, location);
  }

  /**
    `initialize()`: a `q` parameter that is present, even empty, is resolved
    and the page goes to the URL at once; without one, the page waits for
    `DOMContentLoaded` to set up its interface (`listens`).  The fragment is
    never touched.
  */
  method Initialize(queryParam: Option<string>, location: Location, storage: LocalStorage?)
    returns (thrown: Option<Thrown>, listens: bool)
    modifies location
    ensures listens <==> queryParam.None?
    ensures location.hash == old(location.hash)
    ensures queryParam.None? ==> thrown == None && location.href == old(location.href)
    ensures queryParam.Some? && ProcessBang(queryParam.value, old(StorageOf(storage))).Success? ==>
      thrown == None && location.href == ProcessBang(queryParam.value, old(StorageOf(storage))).value
    ensures queryParam.Some? && ProcessBang(queryParam.value, old(StorageOf(storage))).Failure? ==>
      thrown == Some(ProcessBang(queryParam.value, old(StorageOf(storage))).error) && location.href == old(location.href)
  {
    if queryParam.None? {
      return None, true;
    }
    var r := ProcessBang(queryParam.value, StorageOf(storage));
    ProcessBangNonEmpty(queryParam.value, StorageOf(storage));
    listens := false;
    if r.Failure? {
      return Some(r.error), false;
    }
    thrown := None;
    if r.value != "" {
      Redirect(r.value, location);
    }
  }

  // ---------------------------------------------------------------------------
  // toggleDarkMode
  // ---------------------------------------------------------------------------

  /** The class list `toggleDarkMode` leaves on the root element. */
  function Toggled(cs: seq<string>): seq<string> {
    if DarkMode in cs then Added(Without(cs, DarkMode), LightMode)
    else Added(Without(cs, LightMode), DarkMode)
  }

  method ToggleDarkMode(html: ClassList)
    requires html.Valid()
    modifies html
    ensures html.Valid() && html.classes == Toggled(old(html.classes))
  {
    if html.Contains(DarkMode) {
      html.Remove(DarkMode);
      html.Add(LightMode);
    } else {
      html.Remove(LightMode);
      html.Add(DarkMode);
    }
  }

  /** After a toggle dark mode is on exactly when it was off, and exactly one theme class is set. */
  lemma ToggledFlipsTheme(cs: seq<string>)
    ensures DarkMode in Toggled(cs) <==> DarkMode !in cs
    ensures LightMode in Toggled(cs) <==> DarkMode in cs
  {
  }

  /** A toggle keeps every class other than the two theme classes. */
  lemma ToggledKeepsOthers(cs: seq<string>, c: string)
    requires c != DarkMode && c != LightMode
    ensures c in Toggled(cs) <==> c in cs
  {
  }

  /** With one theme class set, toggling twice gives back the same set of classes. */
  lemma ToggleTwice(cs: seq<string>)
    requires (DarkMode in cs) != (LightMode in cs)
    ensures forall c :: c in Toggled(Toggled(cs)) <==> c in cs
  {
  }

  // ---------------------------------------------------------------------------
  // toggleSettingsPanel
  // ---------------------------------------------------------------------------

  /** The new `aria-hidden` value: `"false"` after `"true"`, and `"true"` after anything else or nothing. */
  function NextAriaHidden(current: Option<string>): (v: string)
    ensures v == "false" <==> current == Some("true")
    ensures v == "true" <==> current != Some("true")
  {
    if current == Some("true") then "false" else "true"
  }

  /** From a shown or hidden panel, two toggles restore the attribute. */
  lemma AriaHiddenTwice(current: string)
    requires current == "true" || current == "false"
    ensures NextAriaHidden(Some(NextAriaHidden(Some(current)))) == current
  {
  }

  /** `toggleSettingsPanel()`: nothing without a panel; otherwise only `aria-hidden` changes. */
  method ToggleSettingsPanel(panel: Element?)
    modifies panel
    ensures panel != null ==> panel.attributes == old(panel.attributes)[AriaHidden := NextAriaHidden(old(panel.GetAttribute(AriaHidden)))]
  {
    if panel == null {
      return;
    }
    var isHidden := panel.GetAttribute(AriaHidden) == Some("true");
    panel.SetAttribute(AriaHidden, if isHidden then "false" else "true");
  }

  // ---------------------------------------------------------------------------
  // handleDefaultBangChange and showSaveMessage
  // ---------------------------------------------------------------------------

  /** `showSaveMessage()`: the message, when there is one, gets the `visible` class. */
  method ShowSaveMessage(saveMessage: ClassList?)
    requires saveMessage != null ==> saveMessage.Valid()
    modifies saveMessage
    ensures saveMessage != null ==> saveMessage.Valid() && saveMessage.classes == Added(old(saveMessage.classes), Visible)
  {
    if saveMessage != null {
      saveMessage.Add(Visible);
    }
  }

  /** The callback that `showSaveMessage` schedules two seconds later. */
  method HideSaveMessage(saveMessage: ClassList)
    requires saveMessage.Valid()
    modifies saveMessage
    ensures saveMessage.Valid() && saveMessage.classes == Without(old(saveMessage.classes), Visible)
  {
    saveMessage.Remove(Visible);
  }

  /** A message that was hidden is hidden again, with its classes as before, once the callback has run. */
  lemma ShowThenHide(cs: seq<string>)
    requires Visible !in cs
    ensures Without(Added(cs, Visible), Visible) == cs
  {
    AddedThenWithout(cs, Visible);
    WithoutAbsent(cs, Visible);
  }

  /**
    `handleDefaultBangChange(event)`: a change of a `default-bang` radio button
    stores its value under `default-bang` when there is storage, and then shows
    the save message; the stored value becomes the default bang exactly when it
    is a tag of the table.  Any other change, or no storage, changes nothing.
  */
  method HandleDefaultBangChange(name: string, value: string, storage: LocalStorage?, saveMessage: ClassList?)
    requires saveMessage != null ==> saveMessage.Valid()
    modifies storage, saveMessage
    ensures name == RadioName && storage != null ==>
      && storage.items == old(storage.items)[StorageKey := value]
      && (saveMessage != null ==> saveMessage.Valid() && saveMessage.classes == Added(old(saveMessage.classes), Visible))
      && GetDefaultBang(SearchBangs, StorageOf(storage), OwnKeys) == (if value != "" && value in SearchBangs then value else DefaultBang)
    ensures !(name == RadioName && storage != null) ==>
      && (storage != null ==> storage.items == old(storage.items))
      && (saveMessage != null ==> saveMessage.classes == old(saveMessage.classes))
  {
    if name == RadioName && storage != null {
      storage.SetItem(StorageKey, value);
      ShowSaveMessage(saveMessage);
      SearchHasDefault();
      StoredChoiceIsDefault(SearchBangs, old(storage.items), value);
    }
  }
}
