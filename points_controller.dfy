/** The collection-point registry behind `POST /points`, `GET /points/:id` and `GET /points`.
    The database is a store of three tables held as sequences of rows: `points`, `items`
    and the join table `point_item`. */
module PointsController {
  import opened Wrappers
  import opened Collections
  import opened Coordinates
  import ItemQuery

  /** The image every new point is stored with, whatever the request says. */
  const PlaceholderImage: string := "https://images.unsplash.com/photo-1542838132-92c53300491e?ixlib=rb-1.2.1&ixid=eyJhcHBfaWQiOjEyMDd9&auto=format&fit=crop&w=400&q=60"

  /** The message of the 404 answer of `show`. */
  const NotFoundMessage: string := "Point not found."

  /** The columns of a `points` row other than its id. */
  datatype PointFields = PointFields(
    image: string, name: string, email: string, whatsapp: string,
    latitude: Coord, longitude: Coord, city: string, uf: string)

  /** A `points` row. */
  datatype PointRow = PointRow(id: int, fields: PointFields)

  /** An `items` row: a kind of recyclable material. */
  datatype Item = Item(id: int, title: string, image: string)

  /** A `point_item` row, linking one item to one point. */
  datatype PointItem = PointItem(itemId: int, pointId: int)

  /** The body of `POST /points`; `image` is optional and is ignored. */
  datatype CreateRequest = CreateRequest(
    image: Option<string>, name: string, email: string, whatsapp: string,
    latitude: Coord, longitude: Coord, city: string, uf: string, items: seq<int>)

  /** The answer of `GET /points/:id`. */
  datatype ShowResult = Found(point: PointRow, titles: seq<string>) | NotFound(message: string)

  function PointIds(points: seq<PointRow>): set<int> {
    set p | p in points :: p.id
  }

  function ItemIds(items: seq<Item>): set<int> {
    set it | it in items :: it.id
  }

  predicate UniquePointIds(points: seq<PointRow>) {
    forall i, j :: 0 <= i < j < |points| ==> points[i].id != points[j].id
  }

  predicate UniqueItemIds(items: seq<Item>) {
    forall i, j :: 0 <= i < j < |items| ==> items[i].id != items[j].id
  }

  // ---------------------------------------------------------------------------
  // create

  /** The id the database hands out for the next inserted point: at least 1 and greater than
      every id in use, so it is used by no existing point. */
  function FreshId(points: seq<PointRow>): (id: int)
    ensures id >= 1
    ensures forall p :: p in points ==> p.id < id
    decreases |points|
  {
    if points == [] then 1
    else
      var init := points[..|points| - 1];
      assert points == init + [points[|points| - 1]];
      var before, last := FreshId(init), points[|points| - 1].id;
      if last < before then before else last + 1
  }

  /** The join rows `items.map(item_id => ({item_id, point_id}))`: one per requested item id,
      in the same order, each pointing at `pointId`. */
  function JoinRows(itemIds: seq<int>, pointId: int): (rows: seq<PointItem>)
    ensures |rows| == |itemIds|
    ensures forall k :: 0 <= k < |rows| ==> rows[k] == PointItem(itemIds[k], pointId)
    decreases |itemIds|
  {
    if itemIds == [] then [] else [PointItem(itemIds[0], pointId)] + JoinRows(itemIds[1..], pointId)
  }

  // ---------------------------------------------------------------------------
  // show

  /** `knex('points').where('id', id).first()`. */
  function FirstWithId(points: seq<PointRow>, id: int): (r: Option<PointRow>)
    ensures r.None? <==> id !in PointIds(points)
    ensures r.Some? ==> r.value in points && r.value.id == id
    decreases |points|
  {
    if points == [] then None
    else if points[0].id == id then Some(points[0])
    else
      assert points == [points[0]] + points[1..];
      FirstWithId(points[1..], id)
  }

  /** The titles of the items whose id is `itemId`, in table order. */
  function TitlesOf(items: seq<Item>, itemId: int): seq<string>
    decreases |items|
  {
    if items == [] then []
    else (if items[0].id == itemId then [items[0].title] else []) + TitlesOf(items[1..], itemId)
  }

  /** `items JOIN point_item ON items.id = point_item.item_id WHERE point_item.point_id = pointId`,
      selecting `items.title`: for each join row of the point, in join-table order, the titles of
      the items it names. */
  function Titles(items: seq<Item>, rows: seq<PointItem>, pointId: int): seq<string>
    decreases |rows|
  {
    if rows == [] then []
    else
      (if rows[0].pointId == pointId then TitlesOf(items, rows[0].itemId) else [])
      + Titles(items, rows[1..], pointId)
  }

  /** The join rows of `pointId`, in table order. */
  function LinkedRows(rows: seq<PointItem>, pointId: int): (linked: seq<PointItem>)
    ensures forall r :: r in linked <==> r in rows && r.pointId == pointId
    ensures forall r :: multiset(linked)[r] == if r.pointId == pointId then multiset(rows)[r] else 0
    decreases |rows|
  {
    if rows == [] then []
    else
      assert rows == [rows[0]] + rows[1..];
      (if rows[0].pointId == pointId then [rows[0]] else []) + LinkedRows(rows[1..], pointId)
  }

  /** A title comes out of `TitlesOf` exactly when some item with that id carries it. */
  lemma {:induction false} TitlesOfMembership(items: seq<Item>, itemId: int, t: string)
    ensures t in TitlesOf(items, itemId) <==>
            exists k :: 0 <= k < |items| && items[k].id == itemId && items[k].title == t
    decreases |items|
  {
    if items != [] {
      TitlesOfMembership(items[1..], itemId, t);
      if t in TitlesOf(items[1..], itemId) {
        var k :| 0 <= k < |items[1..]| && items[1..][k].id == itemId && items[1..][k].title == t;
        assert items[k + 1] == items[1..][k];
      }
      if exists k :: 0 <= k < |items| && items[k].id == itemId && items[k].title == t {
        var k :| 0 <= k < |items| && items[k].id == itemId && items[k].title == t;
        if k > 0 {
          assert items[1..][k - 1] == items[k];
        }
      }
    }
  }

  /** When item ids are unique, an item id names exactly one title if it is in the table,
      and none otherwise. */
  lemma {:induction false} TitlesOfUnique(items: seq<Item>, itemId: int)
    requires UniqueItemIds(items)
    ensures itemId !in ItemIds(items) ==> TitlesOf(items, itemId) == []
    ensures itemId in ItemIds(items) ==>
            |TitlesOf(items, itemId)| == 1 &&
            exists it :: it in items && it.id == itemId && TitlesOf(items, itemId) == [it.title]
    decreases |items|
  {
    if items != [] {
      var tail := items[1..];
      assert items == [items[0]] + tail;
      assert UniqueItemIds(tail) by {
        forall i, j | 0 <= i < j < |tail| ensures tail[i].id != tail[j].id {
          assert tail[i] == items[i + 1] && tail[j] == items[j + 1];
        }
      }
      TitlesOfUnique(tail, itemId);
      if items[0].id == itemId {
        assert itemId !in ItemIds(tail) by {
          forall it | it in tail ensures it.id != itemId {
            var j :| 0 <= j < |tail| && tail[j] == it;
            assert items[j + 1] == it;
          }
        }
      }
    }
  }

  /** `show` answers exactly the titles linked to the point: a title is in the answer iff a
      join row of the point names an item carrying it. */
  lemma {:induction false} TitlesMembership(items: seq<Item>, rows: seq<PointItem>, pointId: int, t: string)
    ensures t in Titles(items, rows, pointId) <==>
            exists j, k :: 0 <= j < |rows| && 0 <= k < |items| &&
              rows[j].pointId == pointId && rows[j].itemId == items[k].id && items[k].title == t
    decreases |rows|
  {
    if rows != [] {
      TitlesMembership(items, rows[1..], pointId, t);
      TitlesOfMembership(items, rows[0].itemId, t);
      var first := if rows[0].pointId == pointId then TitlesOf(items, rows[0].itemId) else [];
      assert Titles(items, rows, pointId) == first + Titles(items, rows[1..], pointId);
      if t in Titles(items, rows[1..], pointId) {
        var j, k :| 0 <= j < |rows[1..]| && 0 <= k < |items| &&
          rows[1..][j].pointId == pointId && rows[1..][j].itemId == items[k].id && items[k].title == t;
        assert rows[j + 1] == rows[1..][j];
      }
      if exists j, k :: 0 <= j < |rows| && 0 <= k < |items| &&
           rows[j].pointId == pointId && rows[j].itemId == items[k].id && items[k].title == t {
        var j, k :| 0 <= j < |rows| && 0 <= k < |items| &&
          rows[j].pointId == pointId && rows[j].itemId == items[k].id && items[k].title == t;
        if j > 0 {
          assert rows[1..][j - 1] == rows[j];
        }
      }
    }
  }

  /** With unique item ids and every join row of the point naming an existing item, `show` gives
      one title per join row of the point, in join-table order: the single title of the item that
      row names. Rows of other points may name anything. */
  lemma {:induction false} TitlesPerRow(items: seq<Item>, rows: seq<PointItem>, pointId: int)
    requires UniqueItemIds(items)
    requires forall r :: r in rows && r.pointId == pointId ==> r.itemId in ItemIds(items)
    ensures |Titles(items, rows, pointId)| == |LinkedRows(rows, pointId)|
    ensures forall k :: 0 <= k < |LinkedRows(rows, pointId)| ==>
              TitlesOf(items, LinkedRows(rows, pointId)[k].itemId) == [Titles(items, rows, pointId)[k]]
    decreases |rows|
  {
    if rows != [] {
      var tail := rows[1..];
      assert rows == [rows[0]] + tail;
      assert forall r :: r in tail ==> r in rows;
      TitlesPerRow(items, tail, pointId);
      if rows[0].pointId == pointId {
        TitlesOfUnique(items, rows[0].itemId);
        PerRowCons(items, rows[0], LinkedRows(tail, pointId), Titles(items, tail, pointId));
      }
    }
  }

  /** One step of `TitlesPerRow`: a linked row whose item has exactly one title, in front of
      rows that already match their titles one to one. */
  lemma {:induction false} PerRowCons(items: seq<Item>, row: PointItem, linked: seq<PointItem>, titles: seq<string>)
    requires |TitlesOf(items, row.itemId)| == 1
    requires |titles| == |linked|
    requires forall k :: 0 <= k < |linked| ==> TitlesOf(items, linked[k].itemId) == [titles[k]]
    ensures |TitlesOf(items, row.itemId) + titles| == |[row] + linked|
    ensures forall k :: 0 <= k < |[row] + linked| ==>
              TitlesOf(items, ([row] + linked)[k].itemId) == [(TitlesOf(items, row.itemId) + titles)[k]]
  {
    var first := TitlesOf(items, row.itemId);
    var l, t := [row] + linked, first + titles;
    forall k | 0 <= k < |l| ensures TitlesOf(items, l[k].itemId) == [t[k]] {
      if k > 0 {
        assert l[k] == linked[k - 1] && t[k] == titles[k - 1];
      } else {
        assert first == [first[0]];
      }
    }
  }

  // ---------------------------------------------------------------------------
  // index

  /** A join row links point `pointId` to one of the wanted item ids. */
  predicate LinkedToWanted(rows: seq<PointItem>, pointId: int, wanted: seq<Option<int>>) {
    exists r :: r in rows && r.pointId == pointId && Some(r.itemId) in wanted
  }

  /** The three filters of `index`: city, state code and at least one wanted item. */
  predicate MatchesSearch(p: PointRow, rows: seq<PointItem>, wanted: seq<Option<int>>, city: string, uf: string) {
    p.fields.city == city && p.fields.uf == uf && LinkedToWanted(rows, p.id, wanted)
  }

  /** The copies of `p` the join produces: one per join row linking it to a wanted item. */
  function JoinedCopies(p: PointRow, rows: seq<PointItem>, wanted: seq<Option<int>>): seq<PointRow>
    decreases |rows|
  {
    if rows == [] then []
    else
      (if rows[0].pointId == p.id && Some(rows[0].itemId) in wanted then [p] else [])
      + JoinedCopies(p, rows[1..], wanted)
  }

  /** `points JOIN point_item ON points.id = point_item.point_id WHERE point_item.item_id IN wanted
      AND city = city AND uf = uf`, selecting `points.*`, before `DISTINCT`. */
  function Joined(points: seq<PointRow>, rows: seq<PointItem>, wanted: seq<Option<int>>, city: string, uf: string): seq<PointRow>
    decreases |points|
  {
    if points == [] then []
    else
      (if points[0].fields.city == city && points[0].fields.uf == uf then JoinedCopies(points[0], rows, wanted) else [])
      + Joined(points[1..], rows, wanted, city, uf)
  }

  lemma {:induction false} JoinedCopiesMembership(p: PointRow, rows: seq<PointItem>, wanted: seq<Option<int>>, x: PointRow)
    ensures x in JoinedCopies(p, rows, wanted) <==> x == p && LinkedToWanted(rows, p.id, wanted)
    decreases |rows|
  {
    if rows != [] {
      assert rows == [rows[0]] + rows[1..];
      JoinedCopiesMembership(p, rows[1..], wanted, x);
    }
  }

  /** Before `DISTINCT`, the join holds exactly the points that pass all three filters. */
  lemma {:induction false} JoinedMembership(points: seq<PointRow>, rows: seq<PointItem>, wanted: seq<Option<int>>, city: string, uf: string, x: PointRow)
    ensures x in Joined(points, rows, wanted, city, uf) <==> x in points && MatchesSearch(x, rows, wanted, city, uf)
    decreases |points|
  {
    if points != [] {
      assert points == [points[0]] + points[1..];
      JoinedMembership(points[1..], rows, wanted, city, uf, x);
      JoinedCopiesMembership(points[0], rows, wanted, x);
    }
  }

  // ---------------------------------------------------------------------------
  // The store

  /** The database: the three tables, each a sequence of rows in insertion order. */
  class Store {
    var points: seq<PointRow>
    var items: seq<Item>
    var pointItems: seq<PointItem>

    /** Point ids and item ids are unique (each is its table's key) and every join row points
        at an existing point. */
    ghost predicate Valid()
      reads this
    {
      UniquePointIds(points) && UniqueItemIds(items) &&
      forall r :: r in pointItems ==> r.pointId in PointIds(points)
    }

    /** A fresh database with the seeded item kinds and no points. */
    constructor (seededItems: seq<Item>)
      requires UniqueItemIds(seededItems)
      ensures Valid()
      ensures points == [] && pointItems == [] && items == seededItems
    {
      points, items, pointItems := [], seededItems, [];
    }

    /** `POST /points`: inserts the point with the placeholder image, then one join row per
        requested item id, and answers the point with its new id. */
    method Create(req: CreateRequest) returns (created: PointRow)
      requires Valid()
      modifies this
      ensures Valid()
      ensures created.id == FreshId(old(points)) && created.id !in PointIds(old(points))
      ensures created.fields == PointFields(PlaceholderImage, req.name, req.email, req.whatsapp,
                                            req.latitude, req.longitude, req.city, req.uf)
      ensures points == old(points) + [created]
      ensures pointItems == old(pointItems) + JoinRows(req.items, created.id)
      ensures items == old(items)
    {
      var point := PointFields(PlaceholderImage, req.name, req.email, req.whatsapp,
                               req.latitude, req.longitude, req.city, req.uf);
      var pointId := FreshId(points);
      points := points + [PointRow(pointId, point)];
      var rows := JoinRows(req.items, pointId);
      pointItems := pointItems + rows;
      created := PointRow(pointId, point);
    }

    /** `GET /points/:id`: not found exactly when no point has that id; otherwise the point with
        that id and the titles of its linked items. */
    function Show(id: int): (r: ShowResult)
      reads this
      ensures r.NotFound? <==> id !in PointIds(points)
      ensures r.NotFound? ==> r.message == NotFoundMessage
      ensures r.Found? ==> r.point in points && r.point.id == id
      ensures r.Found? ==> r.titles == Titles(items, pointItems, id)
      ensures r.Found? ==> forall t :: t in r.titles <==>
                exists j, k :: 0 <= j < |pointItems| && 0 <= k < |items| &&
                  pointItems[j].pointId == id && pointItems[j].itemId == items[k].id && items[k].title == t
    {
      var titles := Titles(items, pointItems, id);
      assert forall t :: t in titles <==>
               exists j, k :: 0 <= j < |pointItems| && 0 <= k < |items| &&
                 pointItems[j].pointId == id && pointItems[j].itemId == items[k].id && items[k].title == t
      by {
        forall t ensures t in titles <==>
               exists j, k :: 0 <= j < |pointItems| && 0 <= k < |items| &&
                 pointItems[j].pointId == id && pointItems[j].itemId == items[k].id && items[k].title == t
        {
          TitlesMembership(items, pointItems, id, t);
        }
      }
      match FirstWithId(points, id)
      case None => NotFound(NotFoundMessage)
      case Some(p) => Found(p, titles)
    }

    /** `GET /points?city=&uf=&items=`: the points of that city and state linked to at least one
        of the listed item ids, each once. */
    function Index(city: string, uf: string, itemsQuery: string): (r: seq<PointRow>)
      reads this
      ensures NoDuplicates(r)
      ensures forall p :: p in r <==>
                p in points && MatchesSearch(p, pointItems, ItemQuery.ParseItems(itemsQuery), city, uf)
    {
      var wanted := ItemQuery.ParseItems(itemsQuery);
      var joined := Joined(points, pointItems, wanted, city, uf);
      assert forall p :: p in joined <==> p in points && MatchesSearch(p, pointItems, wanted, city, uf) by {
        forall p ensures p in joined <==> p in points && MatchesSearch(p, pointItems, wanted, city, uf) {
          JoinedMembership(points, pointItems, wanted, city, uf, p);
        }
      }
      Distinct(joined)
    }
  }
}
