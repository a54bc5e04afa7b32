/** The product data the storefront framework hands to the product form. A field that the
    form destructures with a default, or that may be missing, is an `Option`: `None` is
    `undefined`. */
module Storefront {
  import opened JsValues

  /** A decimal amount as the storefront API returns it; its arithmetic is not modelled. */
  datatype Amount = Amount(decimal: string)

  datatype MoneyV2 = MoneyV2(amount: Option<Amount>, currencyCode: Option<string>)

  /** An option of the product (say `Color`) and the values a shopper can pick, in order. */
  datatype ProductOption = ProductOption(name: string, values: seq<string>)

  datatype SellingPlanRef = SellingPlanRef(id: Option<string>)

  /** One node of a variant's `sellingPlanAllocations` connection. */
  datatype AllocationNode = AllocationNode(checkoutChargeAmount: Option<MoneyV2>, sellingPlan: Option<SellingPlanRef>)

  /** A connection object; its `nodes` may be missing. */
  datatype AllocationConnection = AllocationConnection(nodes: Option<seq<AllocationNode>>)

  datatype Variant = Variant(
    id: Option<string>,
    availableForSale: bool,
    priceV2: Option<MoneyV2>,
    sellingPlanAllocations: Option<AllocationConnection>)

  datatype SellingPlan = SellingPlan(id: Option<string>, name: Option<string>, description: Option<string>)

  datatype SellingPlanGroupOption = SellingPlanGroupOption(name: string, values: seq<string>)

  datatype SellingPlanGroup = SellingPlanGroup(
    name: Option<string>,
    options: Option<seq<SellingPlanGroupOption>>,
    sellingPlans: Option<seq<SellingPlan>>)
}
