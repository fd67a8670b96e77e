/** The state of the "register a collection point" form and the handlers that update it:
    selecting items, typing into the text fields, choosing state, city and map position,
    and building the payload that is posted on submit. */
module CreatePointForm {
  import opened Wrappers
  import opened Collections
  import opened Coordinates

  /** The three text inputs of the form. */
  datatype FormData = FormData(name: string, email: string, whatsapp: string)

  /** The body posted to `/points` on submit. */
  datatype Payload = Payload(
    name: string, email: string, whatsapp: string, uf: string, city: string,
    latitude: Coord, longitude: Coord, items: seq<int>)

  /** The option value a `<select>` holds before anything is chosen. */
  const Unselected: string := "0"

  // ---------------------------------------------------------------------------
  // item selection

  /** `s.findIndex(item => item === id)`: the first position of `id`, or -1. */
  function FindIndex(s: seq<int>, id: int): (i: int)
    ensures -1 <= i < |s|
    ensures i == -1 <==> id !in s
    ensures 0 <= i ==> s[i] == id && forall j :: 0 <= j < i ==> s[j] != id
    decreases |s|
  {
    if s == [] then -1
    else if s[0] == id then 0
    else
      var k := FindIndex(s[1..], id);
      if k == -1 then -1 else k + 1
  }

  /** `s.filter(item => item !== id)`. */
  function Without(s: seq<int>, id: int): (r: seq<int>)
    ensures id !in r
    ensures forall x :: x != id ==> (x in r <==> x in s)
    decreases |s|
  {
    if s == [] then []
    else
      assert s == [s[0]] + s[1..];
      (if s[0] == id then [] else [s[0]]) + Without(s[1..], id)
  }

  /** The new selection after clicking item `id`: removed if it was selected, otherwise
      appended at the end. Either way `id` flips between selected and not selected, and
      every other item stays as it was. */
  function Toggle(s: seq<int>, id: int): (r: seq<int>)
    ensures id in s ==> r == Without(s, id)
    ensures id !in s ==> r == s + [id]
    ensures (id in r) <==> id !in s
    ensures forall x :: x != id ==> (x in r <==> x in s)
  {
    if FindIndex(s, id) >= 0 then Without(s, id) else s + [id]
  }

  /** Filtering works piecewise, so the elements that stay keep their order. */
  lemma {:induction false} WithoutAppend(s: seq<int>, t: seq<int>, id: int)
    ensures Without(s + t, id) == Without(s, id) + Without(t, id)
    decreases |s|
  {
    if s == [] {
      assert s + t == t;
    } else {
      var u := s + t;
      assert u[0] == s[0] && u[1..] == s[1..] + t;
      WithoutAppend(s[1..], t, id);
      var head := if s[0] == id then [] else [s[0]];
      assert Without(u, id) == head + (Without(s[1..], id) + Without(t, id));
      assert Without(s, id) == head + Without(s[1..], id);
    }
  }

  /** Filtering out an id that is absent changes nothing. */
  lemma {:induction false} WithoutAbsent(s: seq<int>, id: int)
    requires id !in s
    ensures Without(s, id) == s
    decreases |s|
  {
    if s != [] {
      WithoutAbsent(s[1..], id);
      assert [s[0]] + s[1..] == s;
    }
  }

  /** Filtering removes every occurrence of `id` and keeps every other element as often as before. */
  lemma {:induction false} WithoutCounts(s: seq<int>, id: int)
    ensures multiset(Without(s, id)) == multiset(s)[id := 0]
    decreases |s|
  {
    if s != [] {
      WithoutCounts(s[1..], id);
      assert s == [s[0]] + s[1..];
    }
  }

  /** Clicking an unselected item twice gives back the original selection. */
  lemma ToggleTwice(s: seq<int>, id: int)
    requires id !in s
    ensures Toggle(Toggle(s, id), id) == s
  {
    WithoutAppend(s, [id], id);
    WithoutAbsent(s, id);
  }

  /** Filtering keeps a list free of duplicates. */
  lemma {:induction false} WithoutNoDuplicates(s: seq<int>, id: int)
    requires NoDuplicates(s)
    ensures NoDuplicates(Without(s, id))
    decreases |s|
  {
    if s != [] {
      var tail := s[1..];
      assert NoDuplicates(tail) by {
        forall i, j | 0 <= i < j < |tail| ensures tail[i] != tail[j] {
          assert tail[i] == s[i + 1] && tail[j] == s[j + 1];
        }
      }
      WithoutNoDuplicates(tail, id);
      var rest := Without(tail, id);
      if s[0] != id {
        assert s[0] !in tail by {
          forall j | 0 <= j < |tail| ensures tail[j] != s[0] {
            assert tail[j] == s[j + 1];
          }
        }
        var r := [s[0]] + rest;
        forall i, j | 0 <= i < j < |r| ensures r[i] != r[j] {
          if i > 0 {
            assert r[i] == rest[i - 1] && r[j] == rest[j - 1];
          } else {
            assert r[j] == rest[j - 1];
          }
        }
      }
    }
  }

  /** A selection without duplicates stays without duplicates. */
  lemma ToggleNoDuplicates(s: seq<int>, id: int)
    requires NoDuplicates(s)
    ensures NoDuplicates(Toggle(s, id))
  {
    if id in s {
      WithoutNoDuplicates(s, id);
    } else {
      var r := s + [id];
      forall i, j | 0 <= i < j < |r| ensures r[i] != r[j] {
        if j == |s| {
          assert r[i] == s[i];
        }
      }
    }
  }

  // ---------------------------------------------------------------------------
  // text inputs

  /** The value of the form field called `key`, if the form has one. */
  function FieldValue(form: FormData, key: string): Option<string> {
    if key == "name" then Some(form.name)
    else if key == "email" then Some(form.email)
    else if key == "whatsapp" then Some(form.whatsapp)
    else None
  }

  /** `{...formData, [key]: value}`: the field called `key` takes `value` and every other field
      keeps its value; a key that names none of the three fields leaves them all as they were. */
  function WithField(form: FormData, key: string, value: string): (r: FormData)
    ensures FieldValue(form, key).Some? ==> FieldValue(r, key) == Some(value)
    ensures forall k :: k != key ==> FieldValue(r, k) == FieldValue(form, k)
    ensures FieldValue(form, key).None? ==> r == form
  {
    if key == "name" then form.(name := value)
    else if key == "email" then form.(email := value)
    else if key == "whatsapp" then form.(whatsapp := value)
    else form
  }

  // ---------------------------------------------------------------------------
  // The component state

  /** The state the handlers of the form overwrite. */
  class FormState {
    var selectedUF: string
    var selectedCity: string
    var selectedPosition: (Coord, Coord)
    var selectedItems: seq<int>
    var formData: FormData

    /** The selection never lists an item twice. */
    ghost predicate Valid()
      reads this
    {
      NoDuplicates(selectedItems)
    }

    /** The state when the page is first shown. */
    constructor ()
      ensures Valid()
      ensures selectedItems == []
      ensures selectedUF == Unselected && selectedCity == Unselected
      ensures selectedPosition == (0.0, 0.0)
      ensures formData == FormData("", "", "")
    {
      selectedUF, selectedCity := Unselected, Unselected;
      selectedPosition := (0.0, 0.0);
      selectedItems := [];
      formData := FormData("", "", "");
    }

    /** The state `<select>` changed. */
    method SelectUF(uf: string)
      requires Valid()
      modifies this
      ensures Valid()
      ensures selectedUF == uf
      ensures selectedCity == old(selectedCity) && selectedPosition == old(selectedPosition)
      ensures selectedItems == old(selectedItems) && formData == old(formData)
    {
      selectedUF := uf;
    }

    /** The city `<select>` changed. */
    method SelectCity(city: string)
      requires Valid()
      modifies this
      ensures Valid()
      ensures selectedCity == city
      ensures selectedUF == old(selectedUF) && selectedPosition == old(selectedPosition)
      ensures selectedItems == old(selectedItems) && formData == old(formData)
    {
      selectedCity := city;
    }

    /** The map was clicked at (`lat`, `lng`). */
    method MapClick(lat: Coord, lng: Coord)
      requires Valid()
      modifies this
      ensures Valid()
      ensures selectedPosition == (lat, lng)
      ensures selectedUF == old(selectedUF) && selectedCity == old(selectedCity)
      ensures selectedItems == old(selectedItems) && formData == old(formData)
    {
      selectedPosition := (lat, lng);
    }

    /** A text input called `key` changed to `value`. */
    method InputChange(key: string, value: string)
      requires Valid()
      modifies this
      ensures Valid()
      ensures formData == WithField(old(formData), key, value)
      ensures selectedUF == old(selectedUF) && selectedCity == old(selectedCity)
      ensures selectedPosition == old(selectedPosition) && selectedItems == old(selectedItems)
    {
      formData := WithField(formData, key, value);
    }

    /** The item `id` was clicked. */
    method SelectItem(id: int)
      requires Valid()
      modifies this
      ensures Valid()
      ensures selectedItems == Toggle(old(selectedItems), id)
      ensures selectedUF == old(selectedUF) && selectedCity == old(selectedCity)
      ensures selectedPosition == old(selectedPosition) && formData == old(formData)
    {
      ToggleNoDuplicates(selectedItems, id);
      selectedItems := Toggle(selectedItems, id);
    }

    /** The form was submitted: the payload posted to `/points`, read off the current state. */
    method Submit() returns (data: Payload)
      ensures data.latitude == selectedPosition.0 && data.longitude == selectedPosition.1
      ensures data.name == formData.name && data.email == formData.email
      ensures data.whatsapp == formData.whatsapp
      ensures data.items == selectedItems
      ensures data.city == selectedCity && data.uf == selectedUF
    {
      var (latitude, longitude) := selectedPosition;
      var FormData(name, email, whatsapp) := formData;
      data := Payload(name, email, whatsapp, selectedUF, selectedCity, latitude, longitude, selectedItems);
    }
  }
}
