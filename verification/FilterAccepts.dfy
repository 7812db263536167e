/** What a filter accepts, read off the request's own text and the declared limits: the reference that the
    validator's checks meet. */
module FilterAccepts {
  import opened Options
  import opened Text
  import opened Filters
  import opened FilterSql

  /** Within all four declared bounds and among the declared choices. */
  ghost predicate Allowed<V>(d: Domain<V>, spec: Spec<V>, v: V) {
    && (spec.gt.Some? ==> d.less(spec.gt.value, v))
    && (spec.gte.Some? ==> !d.less(v, spec.gte.value))
    && (spec.lt.Some? ==> d.less(v, spec.lt.value))
    && (spec.lte.Some? ==> !d.less(spec.lte.value, v))
    && (spec.choices.Some? ==> v in spec.choices.value)
  }

  /** Between the declared shortest and longest length, both included. */
  predicate OfLength<V>(spec: Spec<V>, length: nat) {
    && (spec.minLength.Some? ==> spec.minLength.value <= length)
    && (spec.maxLength.Some? ==> length <= spec.maxLength.value)
  }

  /** A field that carries nothing is accepted exactly when the filter is optional. */
  lemma AbsentAccepted<V>(d: Domain<V>, spec: Spec<V>)
    ensures Accepts(d, spec, Absent) <==> !spec.required
    ensures ValueOf(spec, Absent) == None
  {
  }

  /** An equality filter takes a text that coerces to a value within bounds, choices and length. */
  lemma ScalarAccepted<V>(d: Domain<V>, spec: Spec<V>, text: string)
    requires spec.lookup == Eq
    ensures Accepts(d, spec, Raw.Text(text)) <==>
              && spec.parse(text).Some?
              && Allowed(d, spec, spec.parse(text).value) && OfLength(spec, d.size(spec.parse(text).value))
    ensures Accepts(d, spec, Raw.Text(text)) ==> ValueOf(spec, Raw.Text(text)) == Some(Scalar(spec.parse(text).value))
  {
  }

  /** A range's two ends: at least one, both where both are required, in order, each allowed. */
  ghost predicate PairAllowed<V>(d: Domain<V>, spec: Spec<V>, low: Option<V>, high: Option<V>) {
    && (low.Some? || high.Some?)
    && (spec.bothRequired ==> low.Some? && high.Some?)
    && (low.Some? && high.Some? ==> !d.less(high.value, low.value))
    && (low.Some? ==> Allowed(d, spec, low.value))
    && (high.Some? ==> Allowed(d, spec, high.value))
  }

  /** One end of a textual range: blank text leaves it open, other text is coerced without its blanks. */
  ghost predicate EndReads<V>(spec: Spec<V>, part: string, end: Option<V>) {
    if Strip(part, Blank) == "" then end.None? else end.Some? && spec.parse(Strip(part, Blank)) == end
  }

  ghost predicate RangeReads<V>(spec: Spec<V>, text: string, low: Option<V>, high: Option<V>) {
    exists a, b :: RangeText(text, a, b) && EndReads(spec, a, low) && EndReads(spec, b, high)
  }

  lemma RangeReadsSplit<V>(spec: Spec<V>, text: string, low: Option<V>, high: Option<V>)
    ensures RangeReads(spec, text, low, high) <==> SplitRange(spec, text) == Some(Pair(low, high))
  {
    hide Strip, RangeText;
    var parts := Split(text, ',');
    forall a, b
      ensures RangeText(text, a, b) <==> parts == [a, b]
    {
      RangeIsSplit(text, a, b);
    }
    if SplitRange(spec, text) == Some(Pair(low, high)) {
      assert parts == [parts[0], parts[1]];
      assert RangeText(text, parts[0], parts[1]) && EndReads(spec, parts[0], low) && EndReads(spec, parts[1], high);
    }
  }

  lemma RangeIsSplit(text: string, a: string, b: string)
    ensures RangeText(text, a, b) <==> Split(text, ',') == [a, b]
  {
    if |Split(text, ',')| == 2 {
      TwoParts(text, a, b);
    } else if RangeText(text, a, b) {
      JoinSnoc([a], b, ',');
      SplitJoin([a, b], ',');
    }
  }

  /** A range filter takes a text of two ends around its one comma, or a decoded pair. */
  lemma RangeAccepted<V>(d: Domain<V>, spec: Spec<V>, text: string, items: seq<Option<V>>)
    requires spec.lookup == Range
    ensures Accepts(d, spec, Raw.Text(text)) <==>
              exists low, high :: RangeReads(spec, text, low, high) && PairAllowed(d, spec, low, high)
    ensures Accepts(d, spec, Decoded(items)) <==> |items| == 2 && PairAllowed(d, spec, items[0], items[1])
  {
    hide SplitRange, RangeReads;
    forall low, high
      ensures RangeReads(spec, text, low, high) <==> SplitRange(spec, text) == Some(Pair(low, high))
    {
      RangeReadsSplit(spec, text, low, high);
    }
    if Accepts(d, spec, Raw.Text(text)) {
      var p := SplitRange(spec, text).value;
      assert RangeReads(spec, text, p.low, p.high) && PairAllowed(d, spec, p.low, p.high);
    }
  }

  /** Every value an instance of the base type and allowed, and no value twice. */
  ghost predicate ListAllowed<V>(d: Domain<V>, spec: Spec<V>, items: seq<Option<V>>) {
    && (forall i :: 0 <= i < |items| ==> items[i].Some? && spec.instance(items[i].value) && Allowed(d, spec, items[i].value))
    && (forall i, j :: 0 <= i < j < |items| ==> items[i] != items[j])
  }

  lemma CollectionMeans<V>(d: Domain<V>, spec: Spec<V>, items: seq<Option<V>>)
    ensures CollectionOk(d, spec, items) <==> ListAllowed(d, spec, items)
  {
    if CollectionOk(d, spec, items) {
      assert forall i :: 0 <= i < |items| ==> EndOk(d, spec, items[i]);
    }
    if ListAllowed(d, spec, items) {
      assert forall i :: 0 <= i < |items| ==> items[i].Some? && spec.instance(items[i].value) && EndOk(d, spec, items[i]);
    }
  }

  /** A collection filter takes a text whose comma separated pieces all coerce, or a decoded list; one of nothing
      but nulls counts as no value. */
  lemma CollectionAccepted<V>(d: Domain<V>, spec: Spec<V>, text: string, items: seq<Option<V>>)
    requires spec.lookup == In
    ensures Accepts(d, spec, Raw.Text(text)) <==>
              var parts := Split(text, ',');
              ListAllowed(d, spec, seq(|parts|, i requires 0 <= i < |parts| => spec.parse(parts[i])))
    ensures Accepts(d, spec, Decoded(items)) <==>
              if forall i :: 0 <= i < |items| ==> items[i].None? then !spec.required else ListAllowed(d, spec, items)
  {
    hide CollectionOk, ListAllowed, Split;
    CollectionMeans(d, spec, items);
    var parts := Split(text, ',');
    var values := seq(|parts|, i requires 0 <= i < |parts| => spec.parse(parts[i]));
    CollectionMeans(d, spec, values);
    AllowedListIsSome(d, spec, values);
    assert forall i :: 0 <= i < |parts| ==> values[i] == spec.parse(parts[i]);
    assert |parts| >= 1;
    assert SplitCollection(spec, text).Some? ==> values[0].Some?;
  }

  lemma AllowedListIsSome<V>(d: Domain<V>, spec: Spec<V>, items: seq<Option<V>>)
    ensures ListAllowed(d, spec, items) ==> forall i :: 0 <= i < |items| ==> items[i].Some?
  {
  }

  /** A JSON filter takes a text that decodes to objects, or a decoded list without nulls: none counts as no
      value, any others must be as many as the declared length allows. */
  lemma JsonAccepted<V>(d: Domain<V>, spec: Spec<V>, text: string, items: seq<Option<V>>)
    requires spec.lookup == Json
    ensures Accepts(d, spec, Raw.Text(text)) <==>
              && spec.parseJson(text).Some?
              && (if |spec.parseJson(text).value| == 0 then !spec.required else OfLength(spec, |spec.parseJson(text).value|))
    ensures Accepts(d, spec, Raw.Text(text)) ==> ValueOf(spec, Raw.Text(text)) == Some(Objects(spec.parseJson(text).value))
    ensures Accepts(d, spec, Decoded(items)) <==>
              && (forall i :: 0 <= i < |items| ==> items[i].Some?)
              && (if |items| == 0 then !spec.required else OfLength(spec, |items|))
    ensures Accepts(d, spec, Decoded(items)) ==>
              && ValueOf(spec, Decoded(items)).Some? && ValueOf(spec, Decoded(items)).value.Objects?
              && |ValueOf(spec, Decoded(items)).value.objects| == |items|
              && forall i :: 0 <= i < |items| ==> Some(ValueOf(spec, Decoded(items)).value.objects[i]) == items[i]
  {
  }

  /** The comparison and search lookups accept nothing but an absent value. */
  lemma OthersRefused<V>(d: Domain<V>, spec: Spec<V>, raw: Raw<V>)
    requires spec.lookup in {Gt, Lt, Gte, Lte, Search} && !raw.Absent?
    ensures !Accepts(d, spec, raw)
  {
  }
}
