/**
 * The caption of a listing, as `SendAdToTg.format_ad` composes it: up to
 * five parts, each present only when its field is non-empty, joined by
 * newlines in a fixed order.
 */
module Caption {
  import opened Markdown
  import opened Text
  import opened Images

  /**
   * The fields of a listing that the sender reads. `id` is the text the
   * f-string gives for the listing's id (`str(id)`, so `"None"` for a missing
   * one); every other field is the empty string when it is absent, None or
   * otherwise falsy in the source. `price` is the text of
   * `priceDetailed.value` and `address` that of `geo.formattedAddress`.
   */
  datatype Listing = Listing(
    id: string,
    title: string,
    description: string,
    price: string,
    sellerId: string,
    address: string,
    images: seq<Variants>)

  const ListingBase: string := "https://avito.ru/"

  /** The escaped title as the text of a link to the listing's page; the id is not escaped. */
  function TitleLink(ad: Listing): string {
    "[" + Escape(ad.title) + "](" + ListingBase + ad.id + ")"
  }

  /** The escaped, stripped description and a newline, which leaves a blank line after it. */
  function DescriptionPart(ad: Listing): string {
    Escape(Strip(ad.description)) + "\n"
  }

  /** The price in bold; the price itself is not escaped. */
  function PriceLine(ad: Listing): string {
    "Цена: *" + ad.price + "*"
  }

  /** The seller id, escaped first and stripped after. */
  function SellerLine(ad: Listing): string {
    "Продавец: " + Strip(Escape(ad.sellerId))
  }

  function AddressPart(ad: Listing): string {
    Escape(ad.address)
  }

  /** A candidate part of the caption and whether `format_ad` appends it to its list. */
  datatype Part = Part(included: bool, text: string)

  /**
   * The five candidate parts in `format_ad`'s order, each with the condition
   * under which it is appended: the escaped title (and the escaped seller id,
   * itself empty when the id is falsy) must be non-empty, the raw description,
   * price and address must be non-empty.
   */
  function Candidates(ad: Listing): seq<Part> {
    var title := Escape(ad.title);
    var seller := if ad.sellerId != "" then Escape(ad.sellerId) else "";
    [ Part(title != "", TitleLink(ad)),
      Part(ad.description != "", DescriptionPart(ad)),
      Part(ad.price != "", PriceLine(ad)),
      Part(seller != "", SellerLine(ad)),
      Part(ad.address != "", AddressPart(ad)) ]
  }

  /** The texts of the included parts, in order: the list the conditional appends build. */
  function Included(ps: seq<Part>): seq<string> {
    if ps == [] then [] else (if ps[0].included then [ps[0].text] else []) + Included(ps[1..])
  }

  /** The local list `parts` of `format_ad`. */
  function Parts(ad: Listing): seq<string> {
    Included(Candidates(ad))
  }

  /** `format_ad`: the parts joined by newlines. */
  function FormatAd(ad: Listing): string {
    JoinLines(Parts(ad))
  }

  /** Each part is appended exactly when its field is non-empty, and no appended part is empty. */
  lemma CandidatesIncluded(ad: Listing)
    ensures |Candidates(ad)| == 5
    ensures Candidates(ad)[0] == Part(ad.title != "", TitleLink(ad))
    ensures Candidates(ad)[1] == Part(ad.description != "", DescriptionPart(ad))
    ensures Candidates(ad)[2] == Part(ad.price != "", PriceLine(ad))
    ensures Candidates(ad)[3] == Part(ad.sellerId != "", SellerLine(ad))
    ensures Candidates(ad)[4] == Part(ad.address != "", AddressPart(ad))
    ensures forall i :: 0 <= i < 5 && Candidates(ad)[i].included ==> Candidates(ad)[i].text != ""
  {
    assert Escape(ad.address) != "" <==> ad.address != "";
    assert TitleLink(ad)[0] == '[';
    assert PriceLine(ad)[0] == 'Ц';
    assert SellerLine(ad)[0] == 'П';
    assert DescriptionPart(ad)[|DescriptionPart(ad)| - 1] == '\n';
  }

  lemma {:induction false} IncludedAppend(xs: seq<Part>, ys: seq<Part>)
    ensures Included(xs + ys) == Included(xs) + Included(ys)
  {
    if xs == [] {
      assert xs + ys == ys;
    } else {
      assert (xs + ys)[1..] == xs[1..] + ys;
      IncludedAppend(xs[1..], ys);
    }
  }

  /** Nothing is kept exactly when no part is included. */
  lemma {:induction false} IncludedEmpty(ps: seq<Part>)
    ensures Included(ps) == [] <==> forall i :: 0 <= i < |ps| ==> !ps[i].included
  {
    if ps != [] {
      IncludedEmpty(ps[1..]);
      assert forall i :: 1 <= i < |ps| ==> ps[i] == ps[1..][i - 1];
    }
  }

  /** When no included part has an empty text, no kept text is empty. */
  lemma {:induction false} IncludedNonEmpty(ps: seq<Part>)
    requires forall i :: 0 <= i < |ps| && ps[i].included ==> ps[i].text != ""
    ensures forall i :: 0 <= i < |Included(ps)| ==> Included(ps)[i] != ""
  {
    if ps != [] {
      IncludedNonEmpty(ps[1..]);
    }
  }

  /** When every part is included, every text is kept, in order. */
  lemma {:induction false} IncludedAll(ps: seq<Part>)
    requires forall i :: 0 <= i < |ps| ==> ps[i].included
    ensures |Included(ps)| == |ps|
    ensures forall i :: 0 <= i < |ps| ==> Included(ps)[i] == ps[i].text
  {
    if ps != [] {
      IncludedAll(ps[1..]);
    }
  }

  /** An included first part is kept first. */
  lemma IncludedFirst(ps: seq<Part>)
    requires ps != [] && ps[0].included
    ensures Included(ps) != [] && Included(ps)[0] == ps[0].text
  {
  }

  /** An included last part is kept last. */
  lemma IncludedLast(ps: seq<Part>)
    requires ps != [] && ps[|ps| - 1].included
    ensures Included(ps) == Included(ps[..|ps| - 1]) + [ps[|ps| - 1].text]
  {
    var n := |ps| - 1;
    assert ps == ps[..n] + [ps[n]];
    IncludedAppend(ps[..n], [ps[n]]);
    assert [ps[n]][1..] == [];
  }

  /** When only the first part is included, it is all that is kept. */
  lemma IncludedOnlyFirst(ps: seq<Part>)
    requires ps != [] && ps[0].included
    requires forall i :: 1 <= i < |ps| ==> !ps[i].included
    ensures Included(ps) == [ps[0].text]
  {
    IncludedEmpty(ps[1..]);
    assert forall i :: 0 <= i < |ps[1..]| ==> ps[1..][i] == ps[i + 1];
  }

  /** The appended parts are never empty strings. */
  lemma PartsNonEmpty(ad: Listing)
    ensures forall i :: 0 <= i < |Parts(ad)| ==> Parts(ad)[i] != ""
  {
    CandidatesIncluded(ad);
    IncludedNonEmpty(Candidates(ad));
  }

  /**
   * Each part of the caption sits at its offset, after a newline unless it
   * is the first, so the parts follow each other in the fixed order.
   */
  lemma CaptionPartAt(ad: Listing, i: nat)
    requires i < |Parts(ad)|
    ensures var caption, parts := FormatAd(ad), Parts(ad);
            && Offset(parts, i) + |parts[i]| <= |caption|
            && caption[Offset(parts, i)..Offset(parts, i) + |parts[i]|] == parts[i]
            && (i > 0 ==> caption[Offset(parts, i) - 1] == '\n')
  {
    JoinLinesPartAt(Parts(ad), i);
  }

  /** The caption is empty exactly when every field it shows is empty. */
  lemma CaptionEmpty(ad: Listing)
    ensures FormatAd(ad) == "" <==>
            ad.title == "" && ad.description == "" && ad.price == "" && ad.sellerId == "" && ad.address == ""
  {
    var cs := Candidates(ad);
    CandidatesIncluded(ad);
    IncludedEmpty(cs);
    PartsNonEmpty(ad);
    var parts := Parts(ad);
    if parts != [] {
      JoinLinesLength(parts);
      assert TotalLength(parts) >= |parts[0]|;
    }
  }

  /** A listing with a title starts its caption with the title link. */
  lemma CaptionStartsWithTitle(ad: Listing)
    requires ad.title != ""
    ensures TitleLink(ad) <= FormatAd(ad)
  {
    CandidatesIncluded(ad);
    IncludedFirst(Candidates(ad));
    CaptionPartAt(ad, 0);
  }

  /** A listing with an address ends its caption with the escaped address. */
  lemma CaptionEndsWithAddress(ad: Listing)
    requires ad.address != ""
    ensures var caption := FormatAd(ad);
            |AddressPart(ad)| <= |caption| && caption[|caption| - |AddressPart(ad)|..] == AddressPart(ad)
  {
    var cs := Candidates(ad);
    CandidatesIncluded(ad);
    IncludedLast(cs);
    JoinLinesSnoc(Included(cs[..4]), AddressPart(ad));
  }

  /** A listing with only a title gives exactly the title link. */
  lemma TitleOnly(ad: Listing)
    requires ad.title != ""
    requires ad.description == "" && ad.price == "" && ad.sellerId == "" && ad.address == ""
    ensures FormatAd(ad) == TitleLink(ad)
  {
    CandidatesIncluded(ad);
    IncludedOnlyFirst(Candidates(ad));
  }

  /**
   * A listing with every field present gives all five parts, in the fixed
   * order, each on its own line.
   */
  lemma AllFields(ad: Listing)
    requires ad.title != "" && ad.description != "" && ad.price != "" && ad.sellerId != "" && ad.address != ""
    ensures Parts(ad) == [TitleLink(ad), DescriptionPart(ad), PriceLine(ad), SellerLine(ad), AddressPart(ad)]
    ensures FormatAd(ad) == TitleLink(ad) + "\n" + DescriptionPart(ad) + "\n" + PriceLine(ad) + "\n"
                            + SellerLine(ad) + "\n" + AddressPart(ad)
  {
    CandidatesIncluded(ad);
    IncludedAll(Candidates(ad));
    JoinLinesFive(TitleLink(ad), DescriptionPart(ad), PriceLine(ad), SellerLine(ad), AddressPart(ad));
  }
}
