/** The payload the product form hands to the subscription widget: `productHashJson` and the
    two builders `getVariantsForPayload` and `getSellingGroupsForPayload`. The payload is kept
    as a value; its JSON text is not modelled. */
module WidgetPayload {
  import opened JsValues
  import opened Storefront
  import opened FormattedId

  /** `amount * 100`, kept unevaluated: the amount is a decimal the model does not compute with. */
  datatype MinorUnits = Hundredfold(amount: Option<Amount>)

  datatype AllocationEntry = AllocationEntry(price: MinorUnits, sellingPlanId: JsNumber)

  datatype VariantEntry = VariantEntry(id: JsNumber, price: MinorUnits, sellingPlanAllocations: seq<AllocationEntry>)

  datatype PlanEntry = PlanEntry(name: Option<string>, description: Option<string>, id: JsNumber)

  /** `sellingPlans` stays `None` (`undefined`) when the group has none, as `?.map` leaves it. */
  datatype GroupEntry = GroupEntry(
    id: nat,
    name: Option<string>,
    options: seq<SellingPlanGroupOption>,
    sellingPlans: Option<seq<PlanEntry>>)

  datatype ProductPayload = ProductPayload(
    price: Option<MoneyV2>,
    requiresSellingPlan: Option<bool>,
    variants: seq<VariantEntry>,
    sellingPlanGroups: seq<GroupEntry>)

  /** `money.amount` where `money` defaults to `{}`. */
  function AmountOf(money: Option<MoneyV2>): Option<Amount> {
    if money.Some? then money.value.amount else None
  }

  /** `sellingPlan.id` where `sellingPlan` defaults to `{}`. */
  function PlanIdOf(plan: Option<SellingPlanRef>): Option<string> {
    if plan.Some? then plan.value.id else None
  }

  /** The allocation nodes of a variant, when `sellingPlanAllocations?.nodes.map` can run:
      a missing connection defaults to `[]`, whose `nodes` is `undefined`, and
      `undefined.map` throws, as it does when the connection has no `nodes`. */
  predicate HasAllocationNodes(v: Variant) {
    v.sellingPlanAllocations.Some? && v.sellingPlanAllocations.value.nodes.Some?
  }

  function AllocationNodes(v: Variant): seq<AllocationNode>
    requires HasAllocationNodes(v)
  {
    v.sellingPlanAllocations.value.nodes.value
  }

  /** The `selling_plan_allocations` of one variant: one entry per node, in order, each
      carrying the charge and the numeric id of its selling plan. */
  function AllocationsForPayload(nodes: seq<AllocationNode>): (r: seq<AllocationEntry>)
    ensures |r| == |nodes|
    ensures forall i :: 0 <= i < |nodes| ==>
      r[i].sellingPlanId == GetFormattedId(PlanIdOf(nodes[i].sellingPlan)) &&
      r[i].price == Hundredfold(AmountOf(nodes[i].checkoutChargeAmount))
  {
    if nodes == [] then []
    else
      [AllocationEntry(Hundredfold(AmountOf(nodes[0].checkoutChargeAmount)),
                       GetFormattedId(PlanIdOf(nodes[0].sellingPlan)))]
      + AllocationsForPayload(nodes[1..])
  }

  /** The entry `getVariantsForPayload` builds for every variant in `variants`, in order. */
  function VariantEntries(variants: seq<Variant>): (r: Completion<seq<VariantEntry>>)
    ensures r.Normal? <==> forall i :: 0 <= i < |variants| ==> HasAllocationNodes(variants[i])
    ensures r.Normal? ==> (
      && |r.value| == |variants|
      && forall i :: 0 <= i < |variants| ==>
           && r.value[i].id == GetFormattedId(variants[i].id)
           && r.value[i].price == Hundredfold(AmountOf(variants[i].priceV2))
           && r.value[i].sellingPlanAllocations == AllocationsForPayload(AllocationNodes(variants[i])))
  {
    if variants == [] then Normal([])
    else
      var v := variants[0];
      if !HasAllocationNodes(v) then TypeError
      else
        var entry := VariantEntry(GetFormattedId(v.id), Hundredfold(AmountOf(v.priceV2)),
                                  AllocationsForPayload(AllocationNodes(v)));
        match VariantEntries(variants[1..])
        case TypeError => TypeError
        case Normal(rest) => Normal([entry] + rest)
  }

  /** `getVariantsForPayload(variants = [])`. */
  function VariantsForPayload(variants: Option<seq<Variant>>): Completion<seq<VariantEntry>> {
    VariantEntries(variants.GetOr([]))
  }

  /** The `selling_plans` of one group: same length and order, name and description copied,
      the id reduced to its numeric form. */
  function PlansForPayload(plans: seq<SellingPlan>): (r: seq<PlanEntry>)
    ensures |r| == |plans|
    ensures forall i :: 0 <= i < |plans| ==>
      r[i] == PlanEntry(plans[i].name, plans[i].description, GetFormattedId(plans[i].id))
  {
    if plans == [] then []
    else [PlanEntry(plans[0].name, plans[0].description, GetFormattedId(plans[0].id))]
         + PlansForPayload(plans[1..])
  }

  /** The entries for `groups`, whose first element sits at index `first` of the whole list. */
  function GroupEntriesFrom(groups: seq<SellingPlanGroup>, first: nat): (r: seq<GroupEntry>)
    ensures |r| == |groups|
    ensures forall i :: 0 <= i < |groups| ==>
      r[i].id == first + i &&
      r[i].name == groups[i].name &&
      r[i].options == groups[i].options.GetOr([]) &&
      r[i].sellingPlans == (if groups[i].sellingPlans.Some? then Some(PlansForPayload(groups[i].sellingPlans.value)) else None)
  {
    if groups == [] then []
    else
      var g := groups[0];
      var plans := if g.sellingPlans.Some? then Some(PlansForPayload(g.sellingPlans.value)) else None;
      [GroupEntry(first, g.name, g.options.GetOr([]), plans)] + GroupEntriesFrom(groups[1..], first + 1)
  }

  /** `getSellingGroupsForPayload(sellingPlanGroups = [])`: entry `i` has id `i`. */
  function SellingGroupsForPayload(groups: Option<seq<SellingPlanGroup>>): (r: seq<GroupEntry>)
    ensures |r| == |groups.GetOr([])|
    ensures forall i :: 0 <= i < |r| ==> r[i].id == i && r[i].name == groups.value[i].name
  {
    GroupEntriesFrom(groups.GetOr([]), 0)
  }

  /** `productHashJson`: no payload (`null`) exactly when the product has no selling-plan
      groups; a `TypeError` when it has some and a variant lacks its allocation nodes;
      otherwise the payload built from the inputs. */
  function ProductHashJson(
    requiresSellingPlan: Option<bool>,
    price: Option<MoneyV2>,
    variants: Option<seq<Variant>>,
    sellingPlanGroups: Option<seq<SellingPlanGroup>>): (r: Completion<Option<ProductPayload>>)
    ensures r == Normal(None) <==> sellingPlanGroups.None? || sellingPlanGroups.value == []
    ensures r == TypeError <==>
      sellingPlanGroups.Some? && sellingPlanGroups.value != [] &&
      exists i :: 0 <= i < |variants.GetOr([])| && !HasAllocationNodes(variants.GetOr([])[i])
    ensures r.Normal? && r.value.Some? ==>
      var p := r.value.value;
      p.price == price && p.requiresSellingPlan == requiresSellingPlan &&
      |p.variants| == |variants.GetOr([])| &&
      |p.sellingPlanGroups| == |sellingPlanGroups.value| > 0 &&
      p.variants == VariantEntries(variants.GetOr([])).value &&
      p.sellingPlanGroups == GroupEntriesFrom(sellingPlanGroups.value, 0)
  {
    if sellingPlanGroups.Some? && |sellingPlanGroups.value| > 0 then
      match VariantsForPayload(variants)
      case TypeError => TypeError
      case Normal(entries) =>
        Normal(Some(ProductPayload(price, requiresSellingPlan, entries, SellingGroupsForPayload(sellingPlanGroups))))
    else Normal(None)
  }

  /** When the product has selling-plan groups and the payload can be built, its variants
      and groups are those the two builders make from the inputs: each variant carries its
      numeric id, its price and its selling-plan allocations; group `i` has id `i`, its name,
      its options and its selling plans, each with its numeric id. */
  lemma PayloadBuiltFromInputs(
    requiresSellingPlan: Option<bool>,
    price: Option<MoneyV2>,
    variants: Option<seq<Variant>>,
    sellingPlanGroups: Option<seq<SellingPlanGroup>>,
    i: nat)
    requires sellingPlanGroups.Some? && sellingPlanGroups.value != []
    requires forall k :: 0 <= k < |variants.GetOr([])| ==> HasAllocationNodes(variants.GetOr([])[k])
    ensures ProductHashJson(requiresSellingPlan, price, variants, sellingPlanGroups).Normal?
    ensures
      var p := ProductHashJson(requiresSellingPlan, price, variants, sellingPlanGroups).value;
      && p.Some?
      && (i < |variants.GetOr([])| ==>
            var v := variants.GetOr([])[i];
            && p.value.variants[i].id == GetFormattedId(v.id)
            && p.value.variants[i].price == Hundredfold(AmountOf(v.priceV2))
            && p.value.variants[i].sellingPlanAllocations == AllocationsForPayload(AllocationNodes(v)))
      && (i < |sellingPlanGroups.value| ==>
            var g := sellingPlanGroups.value[i];
            && p.value.sellingPlanGroups[i].id == i
            && p.value.sellingPlanGroups[i].name == g.name
            && p.value.sellingPlanGroups[i].options == g.options.GetOr([])
            && p.value.sellingPlanGroups[i].sellingPlans
                 == (if g.sellingPlans.Some? then Some(PlansForPayload(g.sellingPlans.value)) else None))
  {
    assert VariantEntries(variants.GetOr([])).Normal?;
  }

  /** A variant with the global id `gid://shopify/ProductVariant/123` appears in the payload
      with the id 123. */
  lemma VariantIdExample(v: Variant)
    requires v.id == Some("gid://shopify/ProductVariant/123") && HasAllocationNodes(v)
    ensures VariantEntries([v]).Normal? && VariantEntries([v]).value[0].id == Finite(123)
  {
    ProductVariantExample();
    var r := VariantEntries([v]);
    assert r.Normal? && r.value[0].id == GetFormattedId(v.id);
  }
}
