/**
  The parts of the browser that the pages change in place: an element's
  `classList`, an element's attributes, `window.localStorage` and
  `window.location`.  Each is an object whose fields the methods update.
*/
module Dom {
  import opened Wrappers

  /** No class name occurs twice: a `DOMTokenList` is an ordered set. */
  predicate Distinct(cs: seq<string>) {
    forall i, j :: 0 <= i < j < |cs| ==> cs[i] != cs[j]
  }

  /** `classList.add(c)`: `c` goes last unless it is already there. */
  function Added(cs: seq<string>, c: string): (r: seq<string>)
    ensures forall x :: x in r <==> x in cs || x == c
    ensures Distinct(cs) ==> Distinct(r)
  {
    if c in cs then cs else cs + [c]
  }

  /** `classList.remove(c)`: every other name stays, in order. */
  function Without(cs: seq<string>, c: string): (r: seq<string>)
    ensures forall x :: x in r <==> x in cs && x != c
    ensures Distinct(cs) ==> Distinct(r)
  {
    if cs == [] then []
    else
      var rest := Without(cs[1..], c);
      assert forall x :: x in cs[1..] ==> x in cs;
      assert Distinct(cs) ==> Distinct(cs[1..]) && cs[0] !in cs[1..];
      if cs[0] == c then rest else [cs[0]] + rest
  }

  /** Removing a name that is absent changes nothing. */
  lemma {:induction false} WithoutAbsent(cs: seq<string>, c: string)
    requires c !in cs
    ensures Without(cs, c) == cs
  {
    if cs != [] {
      assert c !in cs[1..];
      WithoutAbsent(cs[1..], c);
    }
  }

  /** Removing a name from a list with one more name at the end. */
  lemma {:induction false} WithoutAppend(cs: seq<string>, x: string, c: string)
    ensures Without(cs + [x], c) == Without(cs, c) + (if x == c then [] else [x])
  {
    if cs != [] {
      assert (cs + [x])[1..] == cs[1..] + [x];
      WithoutAppend(cs[1..], x, c);
    }
  }

  /** Adding a name and removing it again leaves the list as removing it alone would. */
  lemma AddedThenWithout(cs: seq<string>, c: string)
    ensures Without(Added(cs, c), c) == Without(cs, c)
  {
    if c !in cs {
      WithoutAppend(cs, c, c);
    }
  }

  /** `element.classList`. */
  class ClassList {
    var classes: seq<string>

    ghost predicate Valid()
      reads this
    {
      Distinct(classes)
    }

    constructor ()
      ensures Valid() && classes == []
    {
      classes := [];
    }

    /** `classList.contains(c)`. */
    function Contains(c: string): (b: bool)
      reads this
      ensures b <==> c in classes
    {
      c in classes
    }

    method Add(c: string)
      requires Valid()
      modifies this
      ensures Valid() && classes == Added(old(classes), c)
    {
      classes := Added(classes, c);
    }

    method Remove(c: string)
      requires Valid()
      modifies this
      ensures Valid() && classes == Without(old(classes), c)
    {
      classes := Without(classes, c);
    }
  }

  /** An element's attributes: `getAttribute` gives `null` (`None`) for one that is not set. */
  class Element {
    var attributes: map<string, string>

    constructor (attributes: map<string, string>)
      ensures this.attributes == attributes
    {
      this.attributes := attributes;
    }

    function GetAttribute(name: string): (v: Option<string>)
      reads this
      ensures v.Some? <==> name in attributes
      ensures v.Some? ==> v.value == attributes[name]
    {
      if name in attributes then Some(attributes[name]) else None
    }

    method SetAttribute(name: string, value: string)
      modifies this
      ensures attributes == old(attributes)[name := value]
    {
      attributes := attributes[name := value];
    }
  }

  /** `window.localStorage`: string items under string keys. */
  class LocalStorage {
    var items: map<string, string>

    constructor (items: map<string, string>)
      ensures this.items == items
    {
      this.items := items;
    }

    method SetItem(key: string, value: string)
      modifies this
      ensures items == old(items)[key := value]
    {
      items := items[key := value];
    }
  }

  /** `window.location`: assigning `href` navigates; `hash` is the fragment, `#` included. */
  class Location {
    var href: string
    var hash: string

    constructor (href: string, hash: string)
      ensures this.href == href && this.hash == hash
    {
      this.href := href;
      this.hash := hash;
    }
  }
}
