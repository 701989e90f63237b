/** The field projection GET /food/:id applies to the one listing it returns. */
module Projection {
  import opened Documents

  /** Browse: the listing page; Detail: the details or request page. */
  datatype View = Browse | Detail

  /** Detail when either the `details` or the `request` query parameter is truthy: only then are
      the donor's contact fields shown, and only then is `_id` withheld. */
  function ChooseView(details: Param, request: Param): (v: View)
    ensures v == Detail <==> Truthy(details) || Truthy(request)
    ensures DonatorEmail !in Hidden(v) <==> Truthy(details) || Truthy(request)
    ensures IdField in Hidden(v) <==> Truthy(details) || Truthy(request)
  {
    if Truthy(details) || Truthy(request) then Detail else Browse
  }

  const DetailHidden: set<Field> := {AdditionalNotes, DonatorUID, IdField}
  const BrowseHidden: set<Field> := {DonatorEmail, DonatorName, DonatorUID, DonatorPhotoURL}

  /** The fields an exclusion projection with value 0 names for this view. */
  function Hidden(v: View): set<Field>
  {
    match v
    case Detail => DetailHidden
    case Browse => BrowseHidden
  }

  /** The listing as the store returns it under the view's exclusion projection. */
  function Project(d: Doc, v: View): (r: Doc)
    ensures r.Keys == d.Keys - Hidden(v)
    ensures forall f :: f in r ==> r[f] == d[f]
  {
    d - Hidden(v)
  }

  /** The browse view never shows the donor's identity; every other field, `_id` included, is kept as stored. */
  lemma BrowseHidesDonor(d: Doc)
    ensures var r := Project(d, Browse);
      && DonatorEmail !in r && DonatorName !in r && DonatorUID !in r && DonatorPhotoURL !in r
      && (forall f :: f in d && f !in BrowseHidden ==> f in r && r[f] == d[f])
      && (IdField in d ==> IdField in r && r[IdField] == d[IdField])
  {
  }

  /** The detail view removes exactly additionalNotes, donatorUID and `_id`; the donor's
      photo, e-mail and name stay. */
  lemma DetailHidesNotesAndId(d: Doc)
    ensures var r := Project(d, Detail);
      && AdditionalNotes !in r && DonatorUID !in r && IdField !in r
      && (forall f :: f in d && f !in DetailHidden ==> f in r && r[f] == d[f])
      && (DonatorPhotoURL in d ==> DonatorPhotoURL in r && r[DonatorPhotoURL] == d[DonatorPhotoURL])
      && (DonatorEmail in d ==> DonatorEmail in r && r[DonatorEmail] == d[DonatorEmail])
      && (DonatorName in d ==> DonatorName in r && r[DonatorName] == d[DonatorName])
  {
  }

  /** No view shows both the record identifier and the donor's e-mail, and none shows donatorUID. */
  lemma NoViewShowsIdWithContact(d: Doc, v: View)
    ensures !(IdField in Project(d, v) && DonatorEmail in Project(d, v))
    ensures DonatorUID !in Project(d, v)
  {
  }
}
