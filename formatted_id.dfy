/** `getFormattedId`: the legacy numeric id inside a storefront global id such as
    `gid://shopify/ProductVariant/123`. */
module FormattedId {
  import opened JsValues
  import opened JsStrings

  /** `Number(graphqlId.split('/')[4])`, with `''` as the default for an `undefined` id.
      The result is the NaN of `Number(undefined)` exactly when the id has fewer than four
      slashes, so that the fifth segment is missing; an all-digit fifth segment gives its
      value, and any other fifth segment is left unevaluated as `NotDecimal`. */
  function GetFormattedId(graphqlId: Option<string>): (r: JsNumber)
    ensures r == UndefinedNaN <==> Occurrences(graphqlId.GetOr(""), '/') < 4
    ensures graphqlId.None? ==> r == UndefinedNaN
  {
    var segments := Split(graphqlId.GetOr(""), '/');
    ToNumber(At(segments, 4))
  }

  /** The global id the storefront issues for the entity of type `typeName` numbered `n`. */
  function GlobalId(typeName: string, n: nat): string {
    "gid://shopify/" + typeName + "/" + DecimalString(n)
  }

  /** A leading piece without slashes is split off on its own. */
  lemma SplitLeadingPiece(a: string, rest: string)
    requires '/' !in a
    ensures Split(a + ['/'] + rest, '/') == [a] + Split(rest, '/')
  {
    SplitWithoutSeparator(a, '/');
    SplitAppend(a, rest, '/');
  }

  /** Five pieces without slashes, joined by slashes, split back into those five pieces. */
  lemma SplitFivePieces(a: string, b: string, c: string, d: string, e: string)
    requires '/' !in a && '/' !in b && '/' !in c && '/' !in d && '/' !in e
    ensures Split(a + ['/'] + (b + ['/'] + (c + ['/'] + (d + ['/'] + e))), '/') == [a, b, c, d, e]
  {
    SplitWithoutSeparator(e, '/');
    SplitLeadingPiece(d, e);
    SplitLeadingPiece(c, d + ['/'] + e);
    SplitLeadingPiece(b, c + ['/'] + (d + ['/'] + e));
    SplitLeadingPiece(a, b + ['/'] + (c + ['/'] + (d + ['/'] + e)));
  }

  /** The numeric id of a well-formed global id is its number. */
  lemma GlobalIdRoundTrip(typeName: string, n: nat)
    requires '/' !in typeName
    ensures GetFormattedId(Some(GlobalId(typeName, n))) == Finite(n)
  {
    var digits := DecimalString(n);
    assert GlobalId(typeName, n) == "gid:" + ['/'] + ("" + ['/'] + ("shopify" + ['/'] + (typeName + ['/'] + digits)));
    SplitFivePieces("gid:", "", "shopify", typeName, digits);
    DecimalRoundTrip(n);
  }

  /** The decimal digits of 123. */
  lemma Decimal123()
    ensures DecimalString(123) == "123"
  {
    assert DecimalString(1) == "1";
    assert DecimalString(12) == DecimalString(1) + "2";
    assert DecimalString(123) == DecimalString(12) + "3";
  }

  /** The global id of product variant 123. */
  lemma ProductVariantGlobalId()
    ensures '/' !in "ProductVariant"
    ensures GlobalId("ProductVariant", 123) == "gid://shopify/ProductVariant/123"
  {
    Decimal123();
  }

  /** `gid://shopify/ProductVariant/123` has the numeric id 123. */
  lemma ProductVariantExample()
    ensures GetFormattedId(Some("gid://shopify/ProductVariant/123")) == Finite(123)
  {
    ProductVariantGlobalId();
    GlobalIdRoundTrip("ProductVariant", 123);
  }

  /** Segments after the fifth do not change the numeric id. */
  lemma TrailingSegmentsIgnored(id: string, extra: string)
    requires Occurrences(id, '/') >= 4
    ensures GetFormattedId(Some(id + ['/'] + extra)) == GetFormattedId(Some(id))
  {
    SplitAppend(id, extra, '/');
    assert Split(id + ['/'] + extra, '/')[4] == Split(id, '/')[4];
  }

  /** Whatever follows the fourth slash of a storefront id is read with `Number`: digits
      give their value, and any other text (say `abc`, which JavaScript reads as NaN) is
      left unevaluated. */
  lemma FifthSegmentIsRead(typeName: string, text: string)
    requires '/' !in typeName && '/' !in text
    ensures GetFormattedId(Some("gid://shopify/" + typeName + "/" + text)) == StringToNumber(text)
    ensures !AllDigits(text) ==> GetFormattedId(Some("gid://shopify/" + typeName + "/" + text)) == NotDecimal(text)
  {
    assert "gid://shopify/" + typeName + "/" + text == "gid:" + ['/'] + ("" + ['/'] + ("shopify" + ['/'] + (typeName + ['/'] + text)));
    SplitFivePieces("gid:", "", "shopify", typeName, text);
  }

  /** An id that stops right after its fourth slash has an empty fifth segment, which
      `Number` reads as 0 rather than as NaN. */
  lemma EmptyFifthSegmentIsZero(typeName: string)
    requires '/' !in typeName
    ensures GetFormattedId(Some("gid://shopify/" + typeName + "/")) == Finite(0)
  {
    assert "gid://shopify/" + typeName + "/" == "gid:" + ['/'] + ("" + ['/'] + ("shopify" + ['/'] + (typeName + ['/'] + "")));
    SplitFivePieces("gid:", "", "shopify", typeName, "");
  }
}
