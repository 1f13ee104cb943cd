/** The "Your Photos" listing: the user's photos newest date first, each shown
    with an image fetched by a second query. */
module Gallery {
  import opened Dates
  import opened Records
  import opened Queries

  /** No photo is listed before one with a later date. */
  predicate DescendingByDate(s: seq<Photo>)
  {
    forall i, j :: 0 <= i < j < |s| ==> !Before(s[i].date, s[j].date)
  }

  /** Places `p` before the first photo whose date is not later than its own. */
  function InsertByDate(p: Photo, s: seq<Photo>): (r: seq<Photo>)
    requires DescendingByDate(s)
    ensures DescendingByDate(r)
    ensures multiset(r) == multiset(s) + multiset{p}
  {
    if s == [] then [p]
    else if !Before(p.date, s[0].date) then
      NotBeforeHeadNotBeforeAll(p, s);
      [p] + s
    else
      var rest := InsertByDate(p, s[1..]);
      assert s == [s[0]] + s[1..];
      HeadNotBeforeInserted(p, s, rest);
      [s[0]] + rest
  }

  /** A photo dated no earlier than the head of a newest-first list is dated
      no earlier than any of its photos. */
  lemma NotBeforeHeadNotBeforeAll(p: Photo, s: seq<Photo>)
    requires DescendingByDate(s) && s != [] && !Before(p.date, s[0].date)
    ensures forall j :: 0 <= j < |s| ==> !Before(p.date, s[j].date)
  {
    forall j | 0 < j < |s| ensures !Before(p.date, s[j].date) {
      NotBeforeTransitive(p.date, s[0].date, s[j].date);
    }
  }

  /** When `p` is dated earlier than the head of a newest-first list, the head
      is dated no earlier than anything in the tail with `p` inserted. */
  lemma HeadNotBeforeInserted(p: Photo, s: seq<Photo>, rest: seq<Photo>)
    requires DescendingByDate(s) && s != [] && Before(p.date, s[0].date)
    requires multiset(rest) == multiset(s[1..]) + multiset{p}
    ensures forall x :: x in rest ==> !Before(s[0].date, x.date)
  {
    BeforeAsymmetric(p.date, s[0].date);
    forall x | x in rest ensures !Before(s[0].date, x.date) {
      assert x in multiset(rest);
      if x != p {
        var j :| 0 <= j < |s[1..]| && s[1..][j] == x;
        assert s[j + 1] == x;
      }
    }
  }

  /** `ORDER BY date DESC`: the photos rearranged, newest date first. Photos of
      one date keep their table order here; SQLite does not promise any order
      among them, and no lemma depends on it. */
  function SortByDateDesc(s: seq<Photo>): (r: seq<Photo>)
    ensures DescendingByDate(r)
    ensures multiset(r) == multiset(s)
  {
    if s == [] then []
    else
      assert s == [s[0]] + s[1..];
      InsertByDate(s[0], SortByDateDesc(s[1..]))
  }

  /** One line of the listing as the page shows it: date, notes and the image
      the page fetched for that line. */
  datatype Shown = Shown(date: Date, notes: string, image: Option<Bytes>)

  predicate Owns(p: Photo, userId: UserId, date: Date)
  {
    p.userId == userId && p.date == date
  }

  /** `SELECT image FROM progress_photos WHERE date = ? AND user_id = ?` with
      `fetchone()`: the image of the first such row in table order (the query
      has no ORDER BY and no index, so SQLite scans in rowid order). */
  function ImageOnDate(photos: seq<Photo>, userId: UserId, date: Date): (r: Option<Bytes>)
    ensures r.Some? <==> exists p :: p in photos && Owns(p, userId, date)
    ensures r.Some? ==> exists i :: 0 <= i < |photos| && Owns(photos[i], userId, date) && photos[i].image == r.value
                                    && forall j :: 0 <= j < i ==> !Owns(photos[j], userId, date)
  {
    if photos == [] then None
    else if Owns(photos[0], userId, date) then Some(photos[0].image)
    else
      assert forall i :: 0 < i < |photos| ==> photos[i] == photos[1..][i - 1];
      ImageOnDate(photos[1..], userId, date)
  }

  /** Every row of the sorted listing is one of the user's photos. */
  lemma SortedAreMine(mine: seq<Photo>)
    ensures forall k :: 0 <= k < |SortByDateDesc(mine)| ==> SortByDateDesc(mine)[k] in mine
  {
    var sorted := SortByDateDesc(mine);
    forall k | 0 <= k < |sorted| ensures sorted[k] in mine {
      assert sorted[k] in multiset(mine);
    }
  }

  /** Every one of the user's photos is a row of the sorted listing. */
  lemma MineAreSorted(mine: seq<Photo>)
    ensures forall p :: p in mine ==> p in SortByDateDesc(mine)
  {
    var sorted := SortByDateDesc(mine);
    forall p | p in mine ensures p in sorted {
      assert p in multiset(sorted);
    }
  }

  /** The listing as written: the user's photos newest first, each listed
      (date, notes) shown with the image found by date. */
  function Listing(photos: seq<Photo>, userId: UserId): (r: seq<Shown>)
    ensures |r| == |UserPhotos(photos, userId)|
    ensures forall k :: 0 <= k < |r| ==>
              r[k].date == SortByDateDesc(UserPhotos(photos, userId))[k].date
              && r[k].notes == SortByDateDesc(UserPhotos(photos, userId))[k].notes
  {
    var sorted := SortByDateDesc(UserPhotos(photos, userId));
    seq(|sorted|, i requires 0 <= i < |sorted| =>
      Shown(sorted[i].date, sorted[i].notes, ImageOnDate(photos, userId, sorted[i].date)))
  }

  /** The listing is newest first, and every image lookup finds a row, so
      `fetchone()[0]` never meets `None`. */
  lemma ListingWellDefined(photos: seq<Photo>, userId: UserId)
    ensures forall i, j :: 0 <= i < j < |Listing(photos, userId)|
              ==> !Before(Listing(photos, userId)[i].date, Listing(photos, userId)[j].date)
    ensures forall k :: 0 <= k < |Listing(photos, userId)| ==> Listing(photos, userId)[k].image.Some?
  {
    var mine := UserPhotos(photos, userId);
    var sorted := SortByDateDesc(mine);
    forall k | 0 <= k < |sorted| ensures exists p :: p in photos && Owns(p, userId, sorted[k].date) {
      assert sorted[k] in multiset(mine);
    }
  }

  /** Each line of the listing shows the date and notes of one of the user's photos. */
  lemma ListingShowsOnlyTheUsersPhotos(photos: seq<Photo>, userId: UserId)
    ensures forall k :: 0 <= k < |Listing(photos, userId)| ==>
              exists p :: p in photos && p.userId == userId
                          && p.date == Listing(photos, userId)[k].date && p.notes == Listing(photos, userId)[k].notes
  {
    var mine := UserPhotos(photos, userId);
    var sorted := SortByDateDesc(mine);
    var shown := Listing(photos, userId);
    forall k | 0 <= k < |shown|
      ensures exists p :: p in photos && p.userId == userId && p.date == shown[k].date && p.notes == shown[k].notes
    {
      assert sorted[k] in multiset(mine);
      assert sorted[k] in photos && sorted[k].userId == userId;
    }
  }

  /** Each of the user's photos has a line with its date and notes. */
  lemma ListingShowsAllTheUsersPhotos(photos: seq<Photo>, userId: UserId)
    ensures forall p :: p in photos && p.userId == userId
              ==> exists k :: 0 <= k < |Listing(photos, userId)| && Listing(photos, userId)[k].date == p.date
                                                                 && Listing(photos, userId)[k].notes == p.notes
  {
    var mine := UserPhotos(photos, userId);
    var sorted := SortByDateDesc(mine);
    var shown := Listing(photos, userId);
    forall p | p in photos && p.userId == userId
      ensures exists k :: 0 <= k < |shown| && shown[k].date == p.date && shown[k].notes == p.notes
    {
      assert p in multiset(sorted);
      var k :| 0 <= k < |sorted| && sorted[k] == p;
      assert shown[k].date == p.date;
    }
  }

  /** As written, all lines of one date show one image: that of the first
      photo of that date in table order. */
  lemma ListingShowsOneImagePerDate(photos: seq<Photo>, userId: UserId, k: nat, l: nat)
    requires k < |Listing(photos, userId)| && l < |Listing(photos, userId)|
    requires Listing(photos, userId)[k].date == Listing(photos, userId)[l].date
    ensures Listing(photos, userId)[k].image == Listing(photos, userId)[l].image
  {
  }

  /** Two photos of one user taken on one date: both are listed, but both
      lines show the first photo's image, so the second image is never displayed. */
  lemma SecondPhotoOfADayIsHidden()
    ensures var photos := [Photo(1, 1, "2024-01-01", [1], "front"), Photo(2, 1, "2024-01-01", [2], "side")];
            && |Listing(photos, 1)| == 2
            && (exists k :: 0 <= k < 2 && Listing(photos, 1)[k].notes == "side")
            && forall k :: 0 <= k < 2 ==> Listing(photos, 1)[k].image == Some([1])
  {
    var photos := [Photo(1, 1, "2024-01-01", [1], "front"), Photo(2, 1, "2024-01-01", [2], "side")];
    SameDayPairSorted(photos);
    assert ImageOnDate(photos, 1, "2024-01-01") == Some([1]);
    assert Listing(photos, 1)[1].notes == "side";
  }

  /** The two photos of the example are already in `ORDER BY date DESC` order. */
  lemma SameDayPairSorted(photos: seq<Photo>)
    requires photos == [Photo(1, 1, "2024-01-01", [1], "front"), Photo(2, 1, "2024-01-01", [2], "side")]
    ensures SortByDateDesc(UserPhotos(photos, 1)) == photos
  {
    Seqs.SelectAll(photos, (p: Photo) => p.userId == 1);
    BeforeIrreflexive("2024-01-01");
    assert photos[1..][1..] == [];
    assert SortByDateDesc(photos[1..]) == [photos[1]];
  }

  /** `SELECT image FROM progress_photos WHERE id = ? AND user_id = ?`: the
      lookup the listing needs, keyed on the row's primary key. */
  function ImageById(photos: seq<Photo>, userId: UserId, id: RowId): (r: Option<Bytes>)
    ensures r.Some? ==> exists p :: p in photos && p.id == id && p.userId == userId && p.image == r.value
  {
    if photos == [] then None
    else if photos[0].id == id && photos[0].userId == userId then Some(photos[0].image)
    else ImageById(photos[1..], userId, id)
  }

  /** Row ids are 1, 2, 3, ... in table order, as an append-only table numbers them. */
  predicate Numbered(photos: seq<Photo>)
  {
    forall i :: 0 <= i < |photos| ==> photos[i].id == i + 1
  }

  /** The corrected listing: the listing query also selects `id`, and each line
      fetches its image by that id. */
  function ListingById(photos: seq<Photo>, userId: UserId): (r: seq<Shown>)
    ensures |r| == |UserPhotos(photos, userId)|
  {
    var sorted := SortByDateDesc(UserPhotos(photos, userId));
    seq(|sorted|, i requires 0 <= i < |sorted| =>
      Shown(sorted[i].date, sorted[i].notes, ImageById(photos, userId, sorted[i].id)))
  }

  /** With numbered rows, the lookup by id finds the photo itself. */
  lemma ImageByIdFindsPhoto(photos: seq<Photo>, p: Photo)
    requires Numbered(photos) && p in photos
    ensures ImageById(photos, p.userId, p.id) == Some(p.image)
  {
    ImageByIdFindsPhotoShifted(photos, p, 1);
  }

  /** `ImageByIdFindsPhoto` for a suffix of a numbered table, whose ids start at `first`. */
  lemma {:induction false} ImageByIdFindsPhotoShifted(photos: seq<Photo>, p: Photo, first: nat)
    requires forall i :: 0 <= i < |photos| ==> photos[i].id == i + first
    requires p in photos
    ensures ImageById(photos, p.userId, p.id) == Some(p.image)
  {
    if photos[0] != p {
      var i :| 0 <= i < |photos| && photos[i] == p;
      assert i > 0 && photos[0].id != p.id;
      assert photos[1..][i - 1] == p;
      ImageByIdFindsPhotoShifted(photos[1..], p, first + 1);
    }
  }

  /** Corrected: every photo of the user is listed with its own image, and the
      listing is newest first. */
  lemma ListingByIdShowsEveryPhoto(photos: seq<Photo>, userId: UserId)
    requires Numbered(photos)
    ensures forall i, j :: 0 <= i < j < |ListingById(photos, userId)|
              ==> !Before(ListingById(photos, userId)[i].date, ListingById(photos, userId)[j].date)
    ensures forall p :: p in photos && p.userId == userId
              ==> Shown(p.date, p.notes, Some(p.image)) in ListingById(photos, userId)
  {
    var mine := UserPhotos(photos, userId);
    var sorted := SortByDateDesc(mine);
    var shown := ListingById(photos, userId);
    ListingByIdLines(photos, userId);
    MineAreSorted(mine);
    forall p | p in photos && p.userId == userId
      ensures Shown(p.date, p.notes, Some(p.image)) in shown
    {
      var k :| 0 <= k < |sorted| && sorted[k] == p;
      assert shown[k] == Shown(p.date, p.notes, Some(p.image));
    }
  }

  /** Line `k` of the corrected listing shows the `k`-th sorted photo with its own image. */
  lemma ListingByIdLines(photos: seq<Photo>, userId: UserId)
    requires Numbered(photos)
    ensures forall k :: 0 <= k < |ListingById(photos, userId)| ==>
              ListingById(photos, userId)[k] == Shown(SortByDateDesc(UserPhotos(photos, userId))[k].date,
                                                      SortByDateDesc(UserPhotos(photos, userId))[k].notes,
                                                      Some(SortByDateDesc(UserPhotos(photos, userId))[k].image))
  {
    var mine := UserPhotos(photos, userId);
    var sorted := SortByDateDesc(mine);
    SortedAreMine(mine);
    forall k | 0 <= k < |sorted|
      ensures ListingById(photos, userId)[k] == Shown(sorted[k].date, sorted[k].notes, Some(sorted[k].image))
    {
      ImageByIdFindsPhoto(photos, sorted[k]);
    }
  }
}
