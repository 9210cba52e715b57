/**
  The Home screen of screens/Home.js: the category sections and their
  selection vector, the rule that turns the selection into the categories the
  menu is filtered by, the mapping from image names to image sources, and the
  screen's effects over the menu store.
 */
module Home {
  import opened Text
  import opened Database

  /** The menu's categories, in display order. */
  const Sections: seq<string> := ["starters", "mains", "desserts"]

  const ImageUrlPrefix := "https://github.com/Meta-Mobile-Developer-PC/Working-With-Data-API/blob/main/images/"
  const ImageUrlSuffix := "?raw=true"

  /** `sections.map(() => false)`: one cleared slot per section. */
  function InitialSelections(sections: seq<string>): (sel: seq<bool>)
    ensures |sel| == |sections|
    ensures forall i :: 0 <= i < |sel| ==> !sel[i]
  {
    seq(|sections|, i requires 0 <= i < |sections| => false)
  }

  /** `handleFiltersChange(index)`: a copy of the vector with one slot flipped. */
  function Toggle(sel: seq<bool>, index: nat): (r: seq<bool>)
    requires index < |sel|
    ensures |r| == |sel|
    ensures r[index] == !sel[index]
    ensures forall j :: 0 <= j < |sel| && j != index ==> r[j] == sel[j]
  {
    sel[index := !sel[index]]
  }

  /** Flipping the same slot twice restores the vector. */
  lemma ToggleTwice(sel: seq<bool>, index: nat)
    requires index < |sel|
    ensures Toggle(Toggle(sel, index), index) == sel
  {
    var r := Toggle(Toggle(sel, index), index);
    assert forall j :: 0 <= j < |sel| ==> r[j] == sel[j];
  }

  /** `filterSelections.every((item) => item === false)`. */
  predicate NoneSelected(sel: seq<bool>) {
    forall i :: 0 <= i < |sel| ==> !sel[i]
  }

  /** `filterSelections[i]` is truthy; a slot past the end is `undefined`. */
  predicate Selected(sel: seq<bool>, i: nat) {
    i < |sel| && sel[i]
  }

  /** The sections from position `i` on that `keepAll` or their slot keeps, in order. */
  function KeptFrom(sections: seq<string>, sel: seq<bool>, keepAll: bool, i: nat): (r: seq<string>)
    requires i <= |sections|
    ensures forall c :: c in r <==> exists j :: i <= j < |sections| && sections[j] == c && (keepAll || Selected(sel, j))
    ensures IsSubsequence(r, sections[i..])
    ensures keepAll ==> r == sections[i..]
    decreases |sections| - i
  {
    if i == |sections| then []
    else
      var rest := KeptFrom(sections, sel, keepAll, i + 1);
      assert sections[i..] == [sections[i]] + sections[i + 1..];
      if keepAll || Selected(sel, i) then [sections[i]] + rest else rest
  }

  /**
    `activeCategories`: with nothing selected every section, otherwise exactly
    the selected sections; either way in section order.
   */
  function ActiveCategories(sections: seq<string>, sel: seq<bool>): (r: seq<string>)
    ensures NoneSelected(sel) ==> r == sections
    ensures forall c :: c in r <==> exists j :: 0 <= j < |sections| && sections[j] == c && (NoneSelected(sel) || Selected(sel, j))
    ensures IsSubsequence(r, sections)
  {
    assert sections[0..] == sections;
    KeptFrom(sections, sel, NoneSelected(sel), 0)
  }

  /** With one slot per section, the active categories are never empty. */
  lemma {:induction false} ActiveNeverEmpty(sections: seq<string>, sel: seq<bool>)
    requires |sections| > 0 && |sel| == |sections|
    ensures ActiveCategories(sections, sel) != []
  {
    if !NoneSelected(sel) {
      var j :| 0 <= j < |sel| && sel[j];
      assert sections[j] in ActiveCategories(sections, sel);
    } else {
      assert sections[0] in ActiveCategories(sections, sel);
    }
  }

  /** The sections contain no quote, so neither does any list of active categories. */
  lemma SectionsQuoteFree(sel: seq<bool>)
    ensures AllQuoteFree(ActiveCategories(Sections, sel))
  {
    assert QuoteFree(Sections[0]) && QuoteFree(Sections[1]) && QuoteFree(Sections[2]);
    var active := ActiveCategories(Sections, sel);
    forall k | 0 <= k < |active|
      ensures QuoteFree(active[k])
    {
      assert active[k] in active;
    }
  }

  // ---------------------------------------------------------------------------
  // Images

  /** What `fetchImage` returns: a bundled asset, or `{uri}`. */
  datatype ImageSource = LocalAsset(file: string) | RemoteUri(uri: string)

  /** `fetchImage(image)`: two images are bundled, every other one is fetched from the image repository. */
  function FetchImage(image: string): (src: ImageSource)
    ensures image == "grilledFish.jpg" ==> src == LocalAsset("grilledFish.png")
    ensures image == "lemonDessert.jpg" ==> src == LocalAsset("lemonDessert.png")
    ensures image != "grilledFish.jpg" && image != "lemonDessert.jpg" ==>
      src == RemoteUri(ImageUrlPrefix + image + ImageUrlSuffix)
  {
    if image == "grilledFish.jpg" then LocalAsset("grilledFish.png")
    else if image == "lemonDessert.jpg" then LocalAsset("lemonDessert.png")
    else RemoteUri(ImageUrlPrefix + image + ImageUrlSuffix)
  }

  /** Different image names never share a source. */
  lemma FetchImageInjective(a: string, b: string)
    requires FetchImage(a) == FetchImage(b)
    ensures a == b
  {
    var src := FetchImage(a);
    if src.RemoteUri? {
      var u := src.uri;
      var p := |ImageUrlPrefix|;
      var q := |ImageUrlSuffix|;
      assert u == ImageUrlPrefix + a + ImageUrlSuffix;
      assert u == ImageUrlPrefix + b + ImageUrlSuffix;
      assert |a| == |b|;
      assert a == u[p..|u| - q];
      assert b == u[p..|u| - q];
    }
  }

  // ---------------------------------------------------------------------------
  // The screen

  /** The outcome of fetching the feed: its `menu` array, or a network or parse error. */
  datatype Feed = Fetched(menu: seq<MenuItem>) | FetchFailed

  /** What the menu list shows: rows read from the store, or the feed's own items. */
  datatype Listing = StoredRows(rows: seq<Row>) | FeedItems(items: seq<MenuItem>)

  class HomeScreen {
    const db: MenuDb
    var menu: Listing
    var searchBarText: string
    var query: string
    var filterSelections: seq<bool>

    ghost predicate Valid()
      reads this, db
    {
      db.Valid() && |filterSelections| == |Sections|
    }

    constructor (db: MenuDb)
      requires db.Valid()
      ensures this.db == db && Valid()
      ensures menu == StoredRows([]) && searchBarText == "" && query == ""
      ensures filterSelections == InitialSelections(Sections)
    {
      this.db := db;
      menu := StoredRows([]);
      searchBarText := "";
      query := "";
      filterSelections := InitialSelections(Sections);
    }

    /**
      The mount effect: create the table, read it, and only when it is empty
      fetch the feed, insert its items and show them. A fetch failure happens
      before the insert, so the store keeps its (empty) rows and the error is
      alerted.
     */
    method Mount(feed: Feed) returns (fetched: bool, alerted: bool)
      requires Valid()
      modifies this`menu, db
      ensures Valid() && db.tableExists
      ensures fetched <==> old(db.rows) == []
      ensures !fetched ==> !alerted && menu == StoredRows(old(db.rows))
      ensures !fetched ==> db.rows == old(db.rows) && db.nextId == old(db.nextId)
      ensures fetched && feed.FetchFailed? ==> alerted && menu == old(menu) && db.rows == []
      ensures fetched && feed.Fetched? ==> !alerted && menu == FeedItems(feed.menu)
      ensures fetched && feed.Fetched? ==> db.rows == NewRows(feed.menu, old(db.nextId))
    {
      db.CreateTable();
      var read := db.GetMenuItems();
      var rows := read.rows;
      fetched := |rows| == 0;
      alerted := false;
      if !fetched {
        menu := StoredRows(rows);
      } else if feed.FetchFailed? {
        alerted := true;
      } else {
        var inserted := db.InsertAllDishes(feed.menu);
        menu := FeedItems(feed.menu);
        alerted := !inserted;
      }
    }

    /**
      The update effect on `filterSelections` and `query`: filter the store by
      the active categories and the query; a rejected filter is only alerted.
     */
    method RefreshMenu() returns (alerted: bool)
      requires Valid()
      modifies this`menu
      ensures !db.tableExists ==> alerted && menu == old(menu)
      ensures db.tableExists && SqlSafe(query) ==>
        !alerted && menu == StoredRows(Select(db.rows, query, ActiveCategories(Sections, filterSelections)))
    {
      var active := ActiveCategories(Sections, filterSelections);
      ActiveNeverEmpty(Sections, filterSelections);
      SectionsQuoteFree(filterSelections);
      var r := db.FilterByQueryAndCategories(query, active);
      if r.Resolved? {
        menu := StoredRows(r.rows);
        alerted := false;
      } else {
        alerted := true;
      }
    }

    /** `handleFiltersChange(index)`, called by the chip at `index`. */
    method HandleFiltersChange(index: nat)
      requires Valid() && index < |filterSelections|
      modifies this`filterSelections
      ensures Valid()
      ensures filterSelections == Toggle(old(filterSelections), index)
    {
      filterSelections := Toggle(filterSelections, index);
    }

    /** `handleSearchChange(text)`: the search bar shows the text and the query becomes it. */
    method HandleSearchChange(text: string)
      modifies this`searchBarText, this`query
      ensures searchBarText == text && query == text
    {
      searchBarText := text;
      query := text;
    }
  }
}
