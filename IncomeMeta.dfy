/**
 * The fixation filter of the demo income table: the quick-search select that
 * lists the fixations, and the rule that turns the chosen option into the SQL
 * fragment prepended to the search condition.
 */
module IncomeMeta {
  import opened Php
  import opened PhpNumeric

  const FIXATION_FIELD := "fixation"
  const NO_FIXATION_KEY := "nofixation"
  const NO_FIXATION_LABEL := "__framelixdemo_search_option_nofixation__"
  const CHOOSE_FIXATION_LABEL := "__framelixdemo_search_option_choose_fixation__"
  const NULL_CONDITION := "fixation IS NULL"
  const EQUALS_PREFIX := "fixation = "

  /**
   * The condition the parent meta class builds. Only `prependFixedCondition`
   * is touched here; `inherited` stands for everything else the parent put in.
   */
  datatype LazySearchCondition = LazySearchCondition(prependFixedCondition: Option<string>, inherited: string)

  /** `$options['fixation'] ?? false`, with a missing options array or entry read as null. */
  function FixationOption(options: Option<map<string, Value>>): Value {
    if options.Some? && FIXATION_FIELD in options.value then options.value[FIXATION_FIELD] else VNull
  }

  /** The fragment the fixation option selects; None leaves the parent's condition as it is. */
  function FixedConditionFor(v: Value): (r: Option<string>)
    ensures r.Some? ==> Truthy(v) && (v == VStr(NO_FIXATION_KEY) || IsNumeric(v))
  {
    if !Truthy(v) then None
    else if v == VStr(NO_FIXATION_KEY) then Some(NULL_CONDITION)
    else if IsNumeric(v) then Some(EQUALS_PREFIX + IntToString(IntCast(v)))
    else None
  }

  /** `Income::getQuickSearchCondition`, given the parent's condition. */
  function QuickSearchCondition(parent: LazySearchCondition, options: Option<map<string, Value>>): (r: LazySearchCondition)
    ensures r.inherited == parent.inherited
  {
    match FixedConditionFor(FixationOption(options))
    case None => parent
    case Some(fragment) => parent.(prependFixedCondition := Some(fragment))
  }

  /** A missing options array, a missing entry and every PHP-falsy value ("", "0", ...) leave the condition unchanged. */
  lemma FalsyFixationKeepsCondition(parent: LazySearchCondition, options: Option<map<string, Value>>)
    requires !Truthy(FixationOption(options))
    ensures QuickSearchCondition(parent, options) == parent
  {
  }

  /** The option "nofixation" selects the rows without a fixation. */
  lemma NoFixationSelectsNull(parent: LazySearchCondition, options: Option<map<string, Value>>)
    requires FixationOption(options) == VStr(NO_FIXATION_KEY)
    ensures QuickSearchCondition(parent, options).prependFixedCondition == Some("fixation IS NULL")
  {
  }

  /**
   * Any other value: a numeric one selects the fixation with its integer
   * value, and a truthy non-numeric one leaves the condition unchanged.
   */
  lemma OtherFixationValues(parent: LazySearchCondition, options: Option<map<string, Value>>)
    requires Truthy(FixationOption(options)) && FixationOption(options) != VStr(NO_FIXATION_KEY)
    ensures var v := FixationOption(options);
      && (IsNumeric(v) ==>
            QuickSearchCondition(parent, options).prependFixedCondition == Some("fixation = " + IntToString(IntCast(v))))
      && (!IsNumeric(v) ==> QuickSearchCondition(parent, options) == parent)
  {
  }

  /**
   * Whatever text the option carries, a fragment that is set is either the
   * null test or the equality prefix followed by an integer's decimal text:
   * only digits, after at most one leading minus sign.
   */
  lemma FixedConditionShape(v: Value)
    ensures var r := FixedConditionFor(v);
      r.Some? ==>
        || r.value == NULL_CONDITION
        || (&& |r.value| > |EQUALS_PREFIX|
            && r.value[..|EQUALS_PREFIX|] == EQUALS_PREFIX
            && exists n: int :: r.value[|EQUALS_PREFIX|..] == IntToString(n))
    ensures var r := FixedConditionFor(v);
      r.Some? && r.value != NULL_CONDITION ==>
        forall k :: |EQUALS_PREFIX| <= k < |r.value| ==>
          IsDigit(r.value[k]) || (k == |EQUALS_PREFIX| && r.value[k] == '-')
  {
    var r := FixedConditionFor(v);
    if r.Some? && r.value != NULL_CONDITION {
      var n := IntCast(v);
      var digits := IntToString(n);
      IntToStringChars(n);
      assert r.value == EQUALS_PREFIX + digits;
      assert r.value[|EQUALS_PREFIX|..] == digits;
      forall k | |EQUALS_PREFIX| <= k < |r.value|
        ensures IsDigit(r.value[k]) || (k == |EQUALS_PREFIX| && r.value[k] == '-')
      {
        assert r.value[k] == digits[k - |EQUALS_PREFIX|];
      }
    }
  }

  /** Text shaped like an SQL injection is not numeric and so selects nothing. */
  lemma InjectionTextIgnored()
    ensures FixedConditionFor(VStr("1 OR 1=1")) == None
  {
    var s := "1 OR 1=1";
    assert TrimLeft(s) == s;
    assert TrimRight(s) == s;
    assert SpanDigits(s[1..]) == 0;
    assert SpanDigits(s) == 1;
    assert s[1..][0] == ' ';
  }

  // ----------------------------------------------------- the select field

  datatype Date = Date(year: int, month: int, day: int)

  /** A fixation as the query returns it. */
  datatype Fixation = Fixation(id: int, dateFrom: Date, dateTo: Date)

  datatype SelectOption = SelectOption(key: string, caption: string)

  /**
   * The option of one fixation: its key is the stored id (how the select
   * renders a stored object), its label the two dates joined by " - ".
   */
  function FixationOptionFor(f: Fixation, html: Date -> string): SelectOption {
    SelectOption(IntToString(f.id), html(f.dateFrom) + " - " + html(f.dateTo))
  }

  /** The options of the fixation select: "nofixation" first, then one per fixation in query order. */
  function FixationOptions(fixations: seq<Fixation>, html: Date -> string): (opts: seq<SelectOption>)
    ensures |opts| == |fixations| + 1
  {
    if fixations == [] then [SelectOption(NO_FIXATION_KEY, NO_FIXATION_LABEL)]
    else FixationOptions(fixations[..|fixations| - 1], html) + [FixationOptionFor(fixations[|fixations| - 1], html)]
  }

  lemma {:induction false} FixationOptionsLayout(fixations: seq<Fixation>, html: Date -> string)
    ensures var opts := FixationOptions(fixations, html);
      && |opts| == |fixations| + 1
      && opts[0] == SelectOption("nofixation", "__framelixdemo_search_option_nofixation__")
      && forall k :: 0 <= k < |fixations| ==>
           opts[k + 1] == SelectOption(IntToString(fixations[k].id),
                                       html(fixations[k].dateFrom) + " - " + html(fixations[k].dateTo))
  {
    if fixations != [] {
      var init := fixations[..|fixations| - 1];
      FixationOptionsLayout(init, html);
      forall k | 0 <= k < |init| ensures init[k] == fixations[k] { }
    }
  }

  /**
   * Choosing an option of the select and searching with it gives the matching
   * condition: "nofixation" the null test, a fixation the equality with its id.
   */
  lemma {:induction false} ChosenOptionSelectsFixation(fixations: seq<Fixation>, html: Date -> string, k: nat)
    requires k < |fixations| + 1
    requires k > 0 ==> fixations[k - 1].id != 0
    ensures var key := FixationOptions(fixations, html)[k].key;
      && (k == 0 ==> FixedConditionFor(VStr(key)) == Some(NULL_CONDITION))
      && (k > 0 ==> FixedConditionFor(VStr(key)) == Some(EQUALS_PREFIX + IntToString(fixations[k - 1].id)))
  {
    FixationOptionsLayout(fixations, html);
    if k > 0 {
      IdKeySelectsId(fixations[k - 1].id);
    }
  }

  /** The key of a stored fixation with a non-zero id selects that id. */
  lemma IdKeySelectsId(id: int)
    requires id != 0
    ensures FixedConditionFor(VStr(IntToString(id))) == Some(EQUALS_PREFIX + IntToString(id))
  {
    var key := IntToString(id);
    IntToStringChars(id);
    IntToStringRoundTrip(id);
    assert key != NO_FIXATION_KEY by {
      assert NO_FIXATION_KEY[0] == 'n';
    }
    assert key != "0" by {
      if id > 0 {
        assert key == NatToDecimal(id);
      }
    }
  }

  /** The quick-search select field; `AddOption` appends in call order. */
  class SelectField {
    var name: string
    var chooseOptionLabel: string
    var options: seq<SelectOption>

    constructor ()
      ensures name == "" && chooseOptionLabel == "" && options == []
    {
      name := "";
      chooseOptionLabel := "";
      options := [];
    }

    method AddOption(key: string, caption: string)
      modifies this`options
      ensures options == old(options) + [SelectOption(key, caption)]
    {
      options := options + [SelectOption(key, caption)];
    }
  }

  /**
   * The fixation field of `Income::getQuickSearch`, given the fixations the
   * query returned (sorted by `-dateFrom`) and the date formatter.
   */
  method FixationField(fixations: seq<Fixation>, html: Date -> string) returns (field: SelectField)
    ensures fresh(field)
    ensures field.name == FIXATION_FIELD && field.chooseOptionLabel == CHOOSE_FIXATION_LABEL
    ensures field.options == FixationOptions(fixations, html)
  {
    field := new SelectField();
    field.name := FIXATION_FIELD;
    field.chooseOptionLabel := CHOOSE_FIXATION_LABEL;
    field.AddOption(NO_FIXATION_KEY, NO_FIXATION_LABEL);
    for k := 0 to |fixations|
      invariant field.name == FIXATION_FIELD && field.chooseOptionLabel == CHOOSE_FIXATION_LABEL
      invariant field.options == FixationOptions(fixations[..k], html)
    {
      assert fixations[..k + 1][..k] == fixations[..k];
      var fixation := fixations[k];
      field.AddOption(IntToString(fixation.id), html(fixation.dateFrom) + " - " + html(fixation.dateTo));
    }
    assert fixations[..|fixations|] == fixations;
  }
}
