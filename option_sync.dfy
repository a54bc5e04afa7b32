/** The synchroniser between the selected product options and the page's query string: the
    load pass the form runs once when it mounts, and `handleChange`, which a selector calls
    when the shopper picks a value. */
module OptionSync {
  import opened JsValues
  import opened JsStrings
  import opened UriEncoding
  import opened SearchParams
  import opened Storefront

  /** The framework's selection: option name to chosen value. A value set to `undefined`
      (an unmatched parameter) is `None`. */
  type Selection = map<string, Option<string>>

  /** `selectedOptions[name]`. */
  function Selected(selection: Selection, name: string): Option<string> {
    if name in selection then selection[name] else None
  }

  /** An entry written with `history.replaceState`: the path and the query parameters. */
  datatype UrlEntry = UrlEntry(pathname: string, query: seq<Param>)

  /** What the synchroniser reads and writes: the form's `params`, the framework's selection,
      and the entries written to the browser history, oldest first. */
  datatype FormState = FormState(params: seq<Param>, selection: Selection, history: seq<UrlEntry>)

  /** The key under which an option's choice is written: `encodeURIComponent(name.toLowerCase())`. */
  function ParamKey(name: string): string {
    Encode(Lower(name))
  }

  /** The value written for a choice: `encodeURIComponent(value.toLowerCase())`. */
  function ParamValue(value: string): string {
    Encode(Lower(value))
  }

  /** The key under which the load pass looks an option up. As written, the form uses the
      lower-cased name without encoding it; `EncodedName` is the key the form writes. */
  datatype LookupRule = LowerCasedName | EncodedName

  function LookupKey(rule: LookupRule, name: string): string {
    match rule
    case LowerCasedName => Lower(name)
    case EncodedName => ParamKey(name)
  }

  /** `params.get(key) || null`: a parameter with an empty value counts as missing. */
  function PresentValue(params: seq<Param>, key: string): (r: Option<string>)
    ensures r.Some? <==> Get(params, key).Some? && Get(params, key).value != ""
    ensures r.Some? ==> r == Get(params, key)
  {
    var v := Get(params, key);
    if v.Some? && v.value != "" then v else None
  }

  /** `values.filter((value) => encodeURIComponent(value.toLowerCase()) === param)`. */
  function MatchingValues(values: seq<string>, param: string): (r: seq<string>)
    ensures |r| <= |values|
    ensures forall i :: 0 <= i < |r| ==> r[i] in values && ParamValue(r[i]) == param
    ensures r == [] <==> forall i :: 0 <= i < |values| ==> ParamValue(values[i]) != param
    ensures r != [] ==> r[0] == values[FirstMatchIndex(values, param)]
  {
    if values == [] then []
    else
      var rest := MatchingValues(values[1..], param);
      if ParamValue(values[0]) == param then [values[0]] + rest
      else
        assert FirstMatchIndex(values, param) == 1 + FirstMatchIndex(values[1..], param);
        assert forall i :: 0 <= i < |rest| ==> rest[i] in values[1..];
        rest
  }

  /** `matchedValue[0]`: the first value that matches, or `undefined`. */
  function FirstMatch(values: seq<string>, param: string): (r: Option<string>)
    ensures r.None? <==> forall i :: 0 <= i < |values| ==> ParamValue(values[i]) != param
    ensures r.Some? ==> r.value in values && ParamValue(r.value) == param
  {
    At(MatchingValues(values, param), 0)
  }

  /** The position of the first value whose written form is `param`; `|values|` if none. */
  function FirstMatchIndex(values: seq<string>, param: string): (k: nat)
    ensures k <= |values|
    ensures forall j :: 0 <= j < k ==> ParamValue(values[j]) != param
    ensures k < |values| ==> ParamValue(values[k]) == param
  {
    if values == [] || ParamValue(values[0]) == param then 0
    else 1 + FirstMatchIndex(values[1..], param)
  }

  /** The head of the filtered list is the value at the first matching position. */
  lemma {:induction false} FirstMatchIsFirst(values: seq<string>, param: string)
    ensures FirstMatch(values, param) == At(values, FirstMatchIndex(values, param))
  {
    if values != [] && ParamValue(values[0]) != param {
      FirstMatchIsFirst(values[1..], param);
    }
  }

  /** No two values of the option agree once lower-cased. */
  predicate CaseDistinct(values: seq<string>) {
    forall i, j :: 0 <= i < j < |values| ==> Lower(values[i]) != Lower(values[j])
  }

  /** Two positions holding values that agree once lower-cased are the same position. */
  lemma CaseDistinctPositions(values: seq<string>, k: nat, iv: nat)
    requires CaseDistinct(values) && k <= iv < |values|
    requires Lower(values[k]) == Lower(values[iv])
    ensures k == iv
  {
  }

  /** Among values that differ after lower-casing, the value whose written form is that of
      `v` is `v` itself. */
  lemma FirstMatchFindsValue(values: seq<string>, v: string)
    requires v in values && CaseDistinct(values)
    ensures FirstMatch(values, ParamValue(v)) == Some(v)
  {
    var param := ParamValue(v);
    FirstMatchIsFirst(values, param);
    var k := FirstMatchIndex(values, param);
    var iv :| 0 <= iv < |values| && values[iv] == v;
    assert ParamValue(values[iv]) == param;
    assert k <= iv;
    assert ParamValue(values[k]) == param;
    EncodeInjective(Lower(values[k]), Lower(v));
    CaseDistinctPositions(values, k, iv);
  }

  /** One call of the load pass's `options.map` callback, with the selection the render
      started from as `initial`. When the option's parameter is present the option takes the
      first matching value (or `undefined`); otherwise the option's current choice is written
      under its encoded key and the URL replaced. With no current choice, `toLowerCase` is
      called on `undefined` and throws. */
  function LoadOption(st: FormState, pathname: string, initial: Selection, option: ProductOption, rule: LookupRule): (r: Completion<FormState>)
    ensures r.TypeError? <==>
      PresentValue(st.params, LookupKey(rule, option.name)).None? && Selected(initial, option.name).None?
  {
    var current := PresentValue(st.params, LookupKey(rule, option.name));
    if current.Some? then
      Normal(st.(selection := st.selection[option.name := FirstMatch(option.values, current.value)]))
    else
      match Selected(initial, option.name)
      case None => TypeError
      case Some(chosen) =>
        var params := Set(st.params, ParamKey(option.name), ParamValue(chosen));
        Normal(FormState(params, st.selection, st.history + [UrlEntry(pathname, params)]))
  }

  /** The state after the load pass, and whether a callback threw part-way. */
  datatype PassResult = PassResult(state: FormState, threw: bool)

  /** The load pass over `options`, in order; a throw ends it with the state reached. */
  function LoadPass(st: FormState, pathname: string, initial: Selection, options: seq<ProductOption>, rule: LookupRule): PassResult
    decreases |options|
  {
    if options == [] then PassResult(st, false)
    else
      match LoadOption(st, pathname, initial, options[0], rule)
      case TypeError => PassResult(st, true)
      case Normal(next) => LoadPass(next, pathname, initial, options[1..], rule)
  }

  /** `handleChange(name, value)`: select the value, write its parameter, and replace the URL
      when running in a browser. */
  function Change(st: FormState, pathname: string, name: string, value: string, inBrowser: bool): FormState {
    var params := Set(st.params, ParamKey(name), ParamValue(value));
    FormState(params, st.selection[name := Some(value)],
              if inBrowser then st.history + [UrlEntry(pathname, params)] else st.history)
  }

  /** The URL last written shows the current parameters. */
  predicate UrlInSync(st: FormState, pathname: string) {
    st.history == [] || st.history[|st.history| - 1] == UrlEntry(pathname, st.params)
  }

  /** A fresh mount of the form on the URL `st` left behind, with the framework's initial
      selection. Reading the parameters back from the query string is taken to give the list
      that was written. */
  function Remount(st: FormState, initial: Selection): FormState {
    FormState(st.params, initial, [])
  }

  /** When the next option's parameter is missing and the option has no choice, the pass
      stops there: it reports the throw and keeps the state it had reached. */
  lemma LoadPassStopsWithoutChoice(st: FormState, pathname: string, initial: Selection, options: seq<ProductOption>, rule: LookupRule)
    requires options != []
    requires PresentValue(st.params, LookupKey(rule, options[0].name)).None?
    requires Selected(initial, options[0].name).None?
    ensures LoadPass(st, pathname, initial, options, rule) == PassResult(st, true)
  {
  }

  /** The load pass from position `i` of `options` starts with the step for `options[i]`. */
  lemma LoadPassFirst(st: FormState, pathname: string, initial: Selection, options: seq<ProductOption>, i: nat, rule: LookupRule)
    requires i < |options|
    ensures LoadPass(st, pathname, initial, options[i..], rule)
      == match LoadOption(st, pathname, initial, options[i], rule)
         case TypeError => PassResult(st, true)
         case Normal(next) => LoadPass(next, pathname, initial, options[i + 1..], rule)
  {
    assert options[i..][0] == options[i] && options[i..][1..] == options[i + 1..];
  }

  /** The form component's state. */
  class ProductForm {
    const pathname: string
    var params: seq<Param>
    var selection: Selection
    ghost var history: seq<UrlEntry>

    ghost function State(): FormState
      reads this
    {
      FormState(params, selection, history)
    }

    /** `useState(new URLSearchParams(search))`, with the query already parsed into `search`. */
    constructor (pathname: string, search: seq<Param>, selection: Selection)
      ensures this.pathname == pathname && params == search && this.selection == selection
      ensures history == []
    {
      this.pathname := pathname;
      params := search;
      this.selection := selection;
      history := [];
    }

    /** The effect that runs once on mount: for each option, read its choice from the URL or
      write the current choice into it. `selectedOptions` is the value the render captured,
      so every write reads the selection as it was before the pass. */
    method LoadFromUrl(options: seq<ProductOption>, rule: LookupRule) returns (threw: bool)
      modifies this
      ensures State() == LoadPass(old(State()), pathname, old(selection), options, rule).state
      ensures threw == LoadPass(old(State()), pathname, old(selection), options, rule).threw
    {
      var initial := selection;
      threw := false;
      var i := 0;
      while i < |options|
        invariant 0 <= i <= |options|
        invariant LoadPass(old(State()), pathname, initial, options, rule)
               == LoadPass(State(), pathname, initial, options[i..], rule)
      {
        var option := options[i];
        LoadPassFirst(State(), pathname, initial, options, i, rule);
        ghost var step := LoadOption(State(), pathname, initial, option, rule);
        var current := PresentValue(params, LookupKey(rule, option.name));
        if current.Some? {
          var picked := FirstMatch(option.values, current.value);
          assert step == Normal(FormState(params, selection[option.name := picked], history));
          selection := selection[option.name := picked];
        } else {
          var chosen := Selected(initial, option.name);
          if chosen.None? {
            threw := true;
            return;
          }
          var written := Set(params, ParamKey(option.name), ParamValue(chosen.value));
          assert step == Normal(FormState(written, selection, history + [UrlEntry(pathname, written)])) by {
            LoadWritesMissingParameter(State(), pathname, initial, option, rule);
          }
          params := written;
          history := history + [UrlEntry(pathname, written)];
        }
        i := i + 1;
      }
      assert options[i..] == [];
    }

    /** `handleChange(name, value)`. */
    method HandleChange(name: string, value: string, inBrowser: bool)
      modifies this
      ensures selection == old(selection)[name := Some(value)]
      ensures params == Set(old(params), ParamKey(name), ParamValue(value))
      ensures history == if inBrowser then old(history) + [UrlEntry(pathname, params)] else old(history)
      ensures State() == Change(old(State()), pathname, name, value, inBrowser)
    {
      selection := selection[name := Some(value)];
      params := Set(params, ParamKey(name), ParamValue(value));
      if inBrowser {
        history := history + [UrlEntry(pathname, params)];
      }
    }
  }

  /** An option whose parameter is present takes the first value whose written form is that
      parameter, or `undefined` if none has it; the parameters and the URL are untouched. */
  lemma LoadReadsPresentParameter(st: FormState, pathname: string, initial: Selection, option: ProductOption, rule: LookupRule)
    requires PresentValue(st.params, LookupKey(rule, option.name)).Some?
    ensures
      var param := PresentValue(st.params, LookupKey(rule, option.name)).value;
      var k := FirstMatchIndex(option.values, param);
      && FirstMatch(option.values, param) == At(option.values, k)
      && LoadOption(st, pathname, initial, option, rule)
           == Normal(FormState(st.params, st.selection[option.name := At(option.values, k)], st.history))
  {
    FirstMatchIsFirst(option.values, PresentValue(st.params, LookupKey(rule, option.name)).value);
  }

  /** An option whose parameter is missing (or empty) has its current choice written under
      its encoded key, every other parameter kept, and the URL replaced to show the result;
      the selection is not changed. */
  lemma LoadWritesMissingParameter(st: FormState, pathname: string, initial: Selection, option: ProductOption, rule: LookupRule)
    requires PresentValue(st.params, LookupKey(rule, option.name)).None?
    requires Selected(initial, option.name).Some?
    ensures
      var params := Set(st.params, ParamKey(option.name), ParamValue(Selected(initial, option.name).value));
      LoadOption(st, pathname, initial, option, rule)
        == Normal(FormState(params, st.selection, st.history + [UrlEntry(pathname, params)]))
    ensures
      var next := LoadOption(st, pathname, initial, option, rule).value;
      && AsMap(next.params) == AsMap(st.params)[ParamKey(option.name) := ParamValue(Selected(initial, option.name).value)]
      && Without(next.params, ParamKey(option.name)) == Without(st.params, ParamKey(option.name))
      && next.selection == st.selection
      && next.history == st.history + [UrlEntry(pathname, next.params)]
  {
    var v := Selected(initial, option.name).value;
    SetAsMap(st.params, ParamKey(option.name), ParamValue(v));
    SetKeepsOtherPairs(st.params, ParamKey(option.name), ParamValue(v));
  }

  /** The load pass writes no parameter other than the encoded keys of the options. */
  lemma {:induction false} LoadPassKeepsOtherParameters(st: FormState, pathname: string, initial: Selection, options: seq<ProductOption>, rule: LookupRule, key: string)
    requires forall i :: 0 <= i < |options| ==> ParamKey(options[i].name) != key
    ensures Get(LoadPass(st, pathname, initial, options, rule).state.params, key) == Get(st.params, key)
    decreases |options|
  {
    if options != [] {
      var step := LoadOption(st, pathname, initial, options[0], rule);
      if step.Normal? {
        if PresentValue(st.params, LookupKey(rule, options[0].name)).None? {
          SetThenGetOther(st.params, ParamKey(options[0].name), ParamValue(Selected(initial, options[0].name).value), key);
        }
        LoadPassKeepsOtherParameters(step.value, pathname, initial, options[1..], rule, key);
      }
    }
  }

  /** The load pass changes the choice of no option outside `options`. */
  lemma {:induction false} LoadPassKeepsOtherSelections(st: FormState, pathname: string, initial: Selection, options: seq<ProductOption>, rule: LookupRule, name: string)
    requires forall i :: 0 <= i < |options| ==> options[i].name != name
    ensures Selected(LoadPass(st, pathname, initial, options, rule).state.selection, name) == Selected(st.selection, name)
    decreases |options|
  {
    if options != [] {
      var step := LoadOption(st, pathname, initial, options[0], rule);
      if step.Normal? {
        LoadPassKeepsOtherSelections(step.value, pathname, initial, options[1..], rule, name);
      }
    }
  }

  /** One step of the load pass keeps the URL in sync with the parameters. */
  lemma LoadOptionKeepsUrlInSync(st: FormState, pathname: string, initial: Selection, option: ProductOption, rule: LookupRule)
    requires UrlInSync(st, pathname)
    ensures var step := LoadOption(st, pathname, initial, option, rule);
      step.Normal? ==> UrlInSync(step.value, pathname) && st.history <= step.value.history
  {
  }

  /** After the load pass the URL last written shows the parameters; earlier entries stay. */
  lemma {:induction false} LoadPassKeepsUrlInSync(st: FormState, pathname: string, initial: Selection, options: seq<ProductOption>, rule: LookupRule)
    requires UrlInSync(st, pathname)
    ensures var after := LoadPass(st, pathname, initial, options, rule).state;
      UrlInSync(after, pathname) && st.history <= after.history
    decreases |options|
  {
    if options != [] {
      var step := LoadOption(st, pathname, initial, options[0], rule);
      LoadOptionKeepsUrlInSync(st, pathname, initial, options[0], rule);
      if step.Normal? {
        assert LoadPass(st, pathname, initial, options, rule) == LoadPass(step.value, pathname, initial, options[1..], rule);
        LoadPassKeepsUrlInSync(step.value, pathname, initial, options[1..], rule);
      }
    }
  }

  /** When every option's parameter is present, the load pass only reads: it writes no
      parameter, replaces no URL and does not throw. */
  lemma {:induction false} LoadPassReadOnlyWhenAllPresent(st: FormState, pathname: string, initial: Selection, options: seq<ProductOption>, rule: LookupRule)
    requires forall i :: 0 <= i < |options| ==> PresentValue(st.params, LookupKey(rule, options[i].name)).Some?
    ensures var r := LoadPass(st, pathname, initial, options, rule);
      !r.threw && r.state.params == st.params && r.state.history == st.history
    decreases |options|
  {
    if options != [] {
      var step := LoadOption(st, pathname, initial, options[0], rule);
      assert step.Normal? && step.value.params == st.params;
      LoadPassReadOnlyWhenAllPresent(step.value, pathname, initial, options[1..], rule);
    }
  }

  /** `handleChange(name, value)` selects the value, writes exactly one parameter, and in a
      browser replaces the URL so that it shows the parameters. */
  lemma ChangeWritesOneParameter(st: FormState, pathname: string, name: string, value: string, inBrowser: bool)
    ensures
      var after := Change(st, pathname, name, value, inBrowser);
      && Selected(after.selection, name) == Some(value)
      && (forall other :: other != name ==> Selected(after.selection, other) == Selected(st.selection, other))
      && AsMap(after.params) == AsMap(st.params)[ParamKey(name) := ParamValue(value)]
      && Without(after.params, ParamKey(name)) == Without(st.params, ParamKey(name))
      && (inBrowser ==> UrlInSync(after, pathname))
  {
    SetAsMap(st.params, ParamKey(name), ParamValue(value));
    SetKeepsOtherPairs(st.params, ParamKey(name), ParamValue(value));
  }

  /** Picking the same value twice leaves the parameters and the selection as picking it once. */
  lemma ChangeIdempotent(st: FormState, pathname: string, name: string, value: string, inBrowser: bool)
    ensures
      var once := Change(st, pathname, name, value, inBrowser);
      var twice := Change(once, pathname, name, value, inBrowser);
      twice.params == once.params && twice.selection == once.selection
  {
    SetIdempotent(st.params, ParamKey(name), ParamValue(value));
  }

  /** The written key is the lower-cased name itself exactly when every character of the
      lower-cased name is unreserved. */
  lemma ParamKeyIsLowerIff(name: string)
    ensures ParamKey(name) == Lower(name) <==> forall i :: 0 <= i < |name| ==> Unreserved(Lower(name)[i])
  {
    EncodeFixedIff(Lower(name));
  }

  /** With the lookup rule as written, a remount reads back a choice that `handleChange` (or
      the load pass) wrote exactly when the option's lower-cased name needs no encoding.
      Otherwise the choice is not read and the option's parameter is overwritten. */
  lemma RemountReadsBackAsWrittenIff(st: FormState, pathname: string, initial: Selection, option: ProductOption, value: string)
    requires value in option.values && value != "" && CaseDistinct(option.values)
    requires PresentValue(st.params, Lower(option.name)).None?
    ensures
      var written := Set(st.params, ParamKey(option.name), ParamValue(value));
      var mounted := FormState(written, initial, []);
      LoadOption(mounted, pathname, initial, option, LowerCasedName)
        == Normal(FormState(written, initial[option.name := Some(value)], []))
      <==> ParamKey(option.name) == Lower(option.name)
  {
    var written := Set(st.params, ParamKey(option.name), ParamValue(value));
    SetThenGet(st.params, ParamKey(option.name), ParamValue(value));
    assert |ParamValue(value)| >= |value| > 0;
    if ParamKey(option.name) == Lower(option.name) {
      FirstMatchFindsValue(option.values, value);
    } else {
      SetThenGetOther(st.params, ParamKey(option.name), ParamValue(value), Lower(option.name));
    }
  }

  /** With the lookup under the written key, a remount always reads back a choice that
      `handleChange` (or the load pass) wrote, and leaves the parameters and the URL alone. */
  lemma RemountReadsBackEncodedLookup(st: FormState, pathname: string, initial: Selection, option: ProductOption, value: string)
    requires value in option.values && value != "" && CaseDistinct(option.values)
    ensures
      var written := Set(st.params, ParamKey(option.name), ParamValue(value));
      LoadOption(FormState(written, initial, []), pathname, initial, option, EncodedName)
        == Normal(FormState(written, initial[option.name := Some(value)], []))
  {
    SetThenGet(st.params, ParamKey(option.name), ParamValue(value));
    assert |ParamValue(value)| >= |value| > 0;
    FirstMatchFindsValue(option.values, value);
  }

  /** The key written for the option `Size Fit` is `size%20fit`. */
  lemma SizeFitKey()
    ensures Lower("Size Fit") == "size fit"
    ensures ParamKey("Size Fit") == "size%20fit"
  {
    var lowered := Lower("Size Fit");
    assert lowered[0] == 's' && lowered[5] == 'f';
    assert "size fit" == "size" + (" " + "fit");
    EncodeSpaced("size", "fit");
    assert "size" + ("%20" + "fit") == "size%20fit";
  }

  /** Picking `M` for the option `Size Fit` on a form with no parameters writes the single
      pair `size%20fit=m`, which is not found under the lower-cased name `size fit`. */
  lemma SizeFitPicked()
    ensures Change(FormState([], map[], []), "/products/shirt", "Size Fit", "M", true).params
              == [Param("size%20fit", "m")]
    ensures Get([Param("size%20fit", "m")], "size fit") == None
    ensures ParamValue("S") == "s"
  {
    SizeFitKey();
    CapitalLetterValue('M');
    CapitalLetterValue('S');
    assert "size fit" != "size%20fit";
  }

  /** A single capital letter is written as its lower-case letter. */
  lemma CapitalLetterValue(c: char)
    requires 'A' <= c <= 'Z'
    ensures ParamValue([c]) == [LowerChar(c)]
  {
    assert Lower([c]) == [LowerChar(c)];
    EncodeFixedIff([LowerChar(c)]);
  }

  /** The load pass over a single option is that option's step. */
  lemma LoadPassSingle(st: FormState, pathname: string, initial: Selection, option: ProductOption, rule: LookupRule)
    ensures LoadPass(st, pathname, initial, [option], rule)
      == match LoadOption(st, pathname, initial, option, rule)
         case TypeError => PassResult(st, true)
         case Normal(next) => PassResult(next, false)
  {
    assert [option][1..] == [];
  }

  /** A shopper picks `M` for the option `Size Fit`, whose key `size%20fit` differs from its
      lower-cased name `size fit`. On the next mount the form, as written, does not find the
      parameter: it keeps the framework's default `S` and overwrites the parameter with `s`. */
  lemma SizeFitChoiceLostOnRemount()
    ensures
      var option := ProductOption("Size Fit", ["S", "M"]);
      var picked := Change(FormState([], map[], []), "/products/shirt", "Size Fit", "M", true);
      var initial := map["Size Fit" := Some("S")];
      var asWritten := LoadPass(Remount(picked, initial), "/products/shirt", initial, [option], LowerCasedName);
      && Selected(asWritten.state.selection, "Size Fit") == Some("S")
      && Get(asWritten.state.params, "size%20fit") == Some("s")
  {
    SizeFitPicked();
    SizeFitKey();
    var option := ProductOption("Size Fit", ["S", "M"]);
    var initial := map["Size Fit" := Some("S")];
    var mounted := FormState([Param("size%20fit", "m")], initial, []);
    assert Selected(initial, option.name) == Some("S");
    LoadWritesMissingParameter(mounted, "/products/shirt", initial, option, LowerCasedName);
    LoadPassSingle(mounted, "/products/shirt", initial, option, LowerCasedName);
    var next := LoadOption(mounted, "/products/shirt", initial, option, LowerCasedName).value;
    SetThenGet(mounted.params, ParamKey(option.name), ParamValue("S"));
  }

  /** With the lookup under the written key, a choice picked on a form without parameters
      survives a remount whose framework default is another value. */
  lemma ChoiceKeptByEncodedLookup(pathname: string, option: ProductOption, value: string, initial: Selection)
    requires value in option.values && value != "" && CaseDistinct(option.values)
    ensures
      var picked := Change(FormState([], map[], []), pathname, option.name, value, true);
      var corrected := LoadPass(Remount(picked, initial), pathname, initial, [option], EncodedName);
      && Selected(corrected.state.selection, option.name) == Some(value)
      && Get(corrected.state.params, ParamKey(option.name)) == Some(ParamValue(value))
  {
    var written := Set([], ParamKey(option.name), ParamValue(value));
    RemountReadsBackEncodedLookup(FormState([], map[], []), pathname, initial, option, value);
    LoadPassSingle(FormState(written, initial, []), pathname, initial, option, EncodedName);
    SetThenGet([], ParamKey(option.name), ParamValue(value));
  }

  /** The values `S` and `M` differ once lower-cased. */
  lemma SizesCaseDistinct()
    ensures CaseDistinct(["S", "M"])
  {
    assert Lower("S")[0] == 's' && Lower("M")[0] == 'm';
  }

  /** With the lookup under the written key, the same remount restores `M` and keeps the
      parameter `size%20fit=m`. */
  lemma SizeFitChoiceKeptByEncodedLookup()
    ensures
      var option := ProductOption("Size Fit", ["S", "M"]);
      var picked := Change(FormState([], map[], []), "/products/shirt", "Size Fit", "M", true);
      var initial := map["Size Fit" := Some("S")];
      var corrected := LoadPass(Remount(picked, initial), "/products/shirt", initial, [option], EncodedName);
      && Selected(corrected.state.selection, "Size Fit") == Some("M")
      && Get(corrected.state.params, "size%20fit") == Some("m")
  {
    SizeFitPicked();
    SizeFitKey();
    SizesCaseDistinct();
    ChoiceKeptByEncodedLookup("/products/shirt", ProductOption("Size Fit", ["S", "M"]), "M", map["Size Fit" := Some("S")]);
  }
}
