/**
 * An abstract, already-parsed XML element tree, as ElementTree hands it over:
 * a tag, the attributes in insertion order, optional text and the children
 * in document order. Parsing and serialisation are not part of this model.
 */
module Xml {
  import opened Wrappers

  /** One attribute of an element: a name and its value. */
  datatype Attr = Attr(key: string, value: string)

  datatype Element = Element(tag: string, attrib: seq<Attr>, text: Option<string>, children: seq<Element>)

  /** ElementTree keeps attributes in a dictionary: no name occurs twice. */
  predicate UniqueKeys(attrs: seq<Attr>)
  {
    forall i, j :: 0 <= i < j < |attrs| ==> attrs[i].key != attrs[j].key
  }

  /** `attrib.get(key)`: the value of the first attribute named `key`, if there is one. */
  function Get(attrs: seq<Attr>, key: string): Option<string>
  {
    if attrs == [] then None
    else if attrs[0].key == key then Some(attrs[0].value)
    else Get(attrs[1..], key)
  }

  /** A lookup fails exactly when no attribute carries the name, and succeeds with the value of
      an attribute that does. */
  lemma {:induction false} GetSpec(attrs: seq<Attr>, key: string)
    ensures Get(attrs, key).None? <==> forall i :: 0 <= i < |attrs| ==> attrs[i].key != key
    ensures Get(attrs, key).Some? ==> Attr(key, Get(attrs, key).value) in attrs
  {
    if attrs != [] && attrs[0].key != key {
      GetSpec(attrs[1..], key);
      assert forall i :: 0 < i < |attrs| ==> attrs[i] == attrs[1..][i - 1];
    }
  }

  /** `key in attrib` */
  predicate HasKey(attrs: seq<Attr>, key: string)
  {
    Get(attrs, key).Some?
  }

  /** `del attrib[key]`: the attributes without the one named `key`, the others in their order. */
  function Remove(attrs: seq<Attr>, key: string): (r: seq<Attr>)
    ensures |r| <= |attrs|
    ensures forall a :: a in r <==> a in attrs && a.key != key
  {
    if attrs == [] then []
    else if attrs[0].key == key then Remove(attrs[1..], key)
    else [attrs[0]] + Remove(attrs[1..], key)
  }

  /** Removing `key` makes it absent and leaves every other attribute readable as before. */
  lemma {:induction false} RemoveGet(attrs: seq<Attr>, key: string, other: string)
    ensures Get(Remove(attrs, key), key) == None
    ensures other != key ==> Get(Remove(attrs, key), other) == Get(attrs, other)
  {
    if attrs != [] {
      RemoveGet(attrs[1..], key, other);
    }
  }

  /** On a dictionary that holds `key`, removal drops exactly one entry and keeps the rest a dictionary. */
  lemma {:induction false} RemoveOne(attrs: seq<Attr>, key: string)
    requires UniqueKeys(attrs)
    ensures UniqueKeys(Remove(attrs, key))
    ensures |Remove(attrs, key)| == if HasKey(attrs, key) then |attrs| - 1 else |attrs|
  {
    if attrs != [] {
      assert UniqueKeys(attrs[1..]) by {
        forall i, j | 0 <= i < j < |attrs[1..]| ensures attrs[1..][i].key != attrs[1..][j].key {
          assert attrs[1..][i] == attrs[i + 1] && attrs[1..][j] == attrs[j + 1];
        }
      }
      RemoveOne(attrs[1..], key);
      if attrs[0].key == key {
        assert !HasKey(attrs[1..], key) by {
          forall i | 0 <= i < |attrs[1..]| ensures attrs[1..][i].key != key {
            assert attrs[1..][i] == attrs[i + 1];
          }
          GetSpec(attrs[1..], key);
        }
        RemoveAbsent(attrs[1..], key);
      } else {
        var rest := Remove(attrs[1..], key);
        forall i, j | 0 <= i < j < |[attrs[0]] + rest|
          ensures ([attrs[0]] + rest)[i].key != ([attrs[0]] + rest)[j].key
        {
          if i == 0 {
            assert ([attrs[0]] + rest)[j] in rest;
            assert ([attrs[0]] + rest)[j] in attrs[1..];
          }
        }
      }
    }
  }

  /** Removing an attribute that is not there changes nothing. */
  lemma {:induction false} RemoveAbsent(attrs: seq<Attr>, key: string)
    requires !HasKey(attrs, key)
    ensures Remove(attrs, key) == attrs
  {
    if attrs != [] {
      RemoveAbsent(attrs[1..], key);
      assert attrs == [attrs[0]] + attrs[1..];
    }
  }
}
