/** The display decisions the product form derives from its inputs: the out-of-stock flag and
    the controls it governs, which options get a selector, and whether the widget container
    is rendered. The markup itself is not modelled. */
module ProductDisplay {
  import opened JsValues
  import opened Storefront
  import opened WidgetPayload

  /** `!selectedVariant?.availableForSale || false`. */
  function IsOutOfStock(selectedVariant: Option<Variant>): bool {
    !(selectedVariant.Some? && selectedVariant.value.availableForSale)
  }

  datatype ButtonCaption = SoldOut | AddToBag

  /** The state of the purchase controls: whether the add-to-cart button is disabled, what it
      says, and the variant ids handed to the Shop Pay button when that button is rendered. */
  datatype PurchaseControls = PurchaseControls(
    addToCartDisabled: bool,
    caption: ButtonCaption,
    shopPayVariantIds: Option<seq<Option<string>>>)

  /** The purchase controls for the selected variant. Adding to the cart is possible, and
      Shop Pay offered for that variant, exactly when a variant is selected and is for sale. */
  function PurchaseControlsFor(selectedVariant: Option<Variant>): (c: PurchaseControls)
    ensures !c.addToCartDisabled <==> selectedVariant.Some? && selectedVariant.value.availableForSale
    ensures c.caption == SoldOut <==> c.addToCartDisabled
    ensures c.shopPayVariantIds.Some? <==> !c.addToCartDisabled
    ensures c.shopPayVariantIds.Some? ==> c.shopPayVariantIds.value == [selectedVariant.value.id]
  {
    var outOfStock := IsOutOfStock(selectedVariant);
    PurchaseControls(
      outOfStock,
      if outOfStock then SoldOut else AddToBag,
      if outOfStock then None else Some([selectedVariant.value.id]))
  }

  /** `options.map(...)` in the form: `None` (`null`) for an option with exactly one value,
      which gets no selector; the option itself otherwise. */
  function OptionSelectors(options: seq<ProductOption>): (r: seq<Option<ProductOption>>)
    ensures |r| == |options|
    ensures forall i :: 0 <= i < |options| ==> (r[i].None? <==> |options[i].values| == 1)
    ensures forall i :: 0 <= i < |options| && r[i].Some? ==> r[i].value == options[i]
  {
    if options == [] then []
    else [if |options[0].values| == 1 then None else Some(options[0])] + OptionSelectors(options[1..])
  }

  /** The attributes of the widget container the form renders for the subscription widget. */
  datatype WidgetContainer = WidgetContainer(product: ProductPayload, currency: string)

  /** `productHashJson && <div data-product=... data-currency="$" ...>`. */
  function WidgetContainerFor(productHash: Option<ProductPayload>): Option<WidgetContainer> {
    if productHash.Some? then Some(WidgetContainer(productHash.value, "$")) else None
  }

  /** A product without selling-plan groups renders no widget container; one with groups
      renders it whenever the payload could be built. */
  lemma WidgetRenderedIffSellingPlans(
    requiresSellingPlan: Option<bool>,
    price: Option<MoneyV2>,
    variants: Option<seq<Variant>>,
    sellingPlanGroups: Option<seq<SellingPlanGroup>>)
    requires ProductHashJson(requiresSellingPlan, price, variants, sellingPlanGroups).Normal?
    ensures
      var hash := ProductHashJson(requiresSellingPlan, price, variants, sellingPlanGroups).value;
      WidgetContainerFor(hash).Some? <==> sellingPlanGroups.Some? && sellingPlanGroups.value != []
  {
  }
}
