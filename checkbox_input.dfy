/** The value edits of the checkbox widget: a `checkbox` field holds a list of
    chosen option values, a single-checkbox field (any other type in the `checkbox`
    widget, such as `multiselect`) holds one value or "". */
module CheckboxInput {
  import opened JsValue
  import opened FormTypes

  /** The option value that stands for the "Other" choice. */
  const OtherMarker := Str("__other__")

  /** `Array.isArray(value) ? value : value ? [value] : []` (an absent value
      defaults to `[]`, which the first case already covers). */
  function Normalise(value: Value): (values: seq<Value>)
    ensures value.List? ==> values == value.items
    ensures !value.List? && Truthy(value) ==> values == [value]
    ensures !value.List? && !Truthy(value) ==> values == []
  {
    if value.List? then value.items else if Truthy(value) then [value] else []
  }

  predicate NoDuplicates(s: seq<Value>) {
    forall i, j :: 0 <= i < j < |s| ==> s[i] != s[j]
  }

  /** The list with its first occurrence of `x` (if any) spliced out. */
  function RemoveFirst(s: seq<Value>, x: Value): seq<Value>
    decreases |s|
  {
    if s == [] then []
    else if s[0] == x then s[1..]
    else [s[0]] + RemoveFirst(s[1..], x)
  }

  /** `s.filter(v => v !== x)` */
  function RemoveAll(s: seq<Value>, x: Value): (r: seq<Value>)
    ensures x !in r
    ensures forall v :: v != x ==> multiset(r)[v] == multiset(s)[v]
    decreases |s|
  {
    if s == [] then []
    else (assert s == [s[0]] + s[1..];
          if s[0] == x then RemoveAll(s[1..], x) else [s[0]] + RemoveAll(s[1..], x))
  }

  /** Splicing at the first occurrence is `RemoveFirst`. */
  lemma {:induction false} RemoveFirstAt(s: seq<Value>, x: Value, i: nat)
    requires i < |s| && s[i] == x && x !in s[..i]
    ensures RemoveFirst(s, x) == s[..i] + s[i + 1..]
    decreases i
  {
    if i > 0 {
      assert s[0] in s[..i];
      assert s[1..][..i - 1] == s[1..i];
      assert x !in s[1..][..i - 1];
      RemoveFirstAt(s[1..], x, i - 1);
      assert s[..i] == [s[0]] + s[1..][..i - 1];
      assert s[i + 1..] == s[1..][i..];
    }
  }

  lemma {:induction false} RemoveFirstAbsent(s: seq<Value>, x: Value)
    requires x !in s
    ensures RemoveFirst(s, x) == s
    decreases |s|
  {
    if s != [] {
      assert s[1..] == s[..][1..];
      assert x !in s[1..];
      RemoveFirstAbsent(s[1..], x);
      assert s == [s[0]] + s[1..];
    }
  }

  /** Unchecking takes away exactly one copy of the option, or nothing if absent. */
  lemma {:induction false} RemoveFirstCounts(s: seq<Value>, x: Value)
    ensures x in s ==> multiset(RemoveFirst(s, x)) == multiset(s) - multiset{x}
    ensures x !in s ==> RemoveFirst(s, x) == s
    decreases |s|
  {
    if x !in s {
      RemoveFirstAbsent(s, x);
    } else if s[0] != x {
      assert s == [s[0]] + s[1..];
      assert x in s[1..];
      RemoveFirstCounts(s[1..], x);
    } else {
      assert s == [s[0]] + s[1..];
    }
  }

  /** `newValues.indexOf(x)`: the first position holding `x`, or -1. */
  method IndexOf(s: seq<Value>, x: Value) returns (index: int)
    ensures -1 <= index < |s|
    ensures index == -1 <==> x !in s
    ensures index >= 0 ==> s[index] == x && x !in s[..index]
  {
    var i := 0;
    while i < |s|
      invariant 0 <= i <= |s|
      invariant x !in s[..i]
    {
      if s[i] == x {
        return i;
      }
      assert s[..i + 1] == s[..i] + [s[i]];
      i := i + 1;
    }
    assert s[..i] == s;
    return -1;
  }

  /** `handleCheckboxChange(optionValue, checked)`: the value passed to `onChange`. */
  method HandleCheckboxChange(fieldType: FieldType, value: Value, optionValue: string, checked: bool)
    returns (emitted: Value)
    ensures fieldType != Checkbox ==> emitted == (if checked then Str(optionValue) else Str(""))
    ensures fieldType == Checkbox && checked ==>
      emitted == List(if Str(optionValue) in Normalise(value) then Normalise(value)
                      else Normalise(value) + [Str(optionValue)])
    ensures fieldType == Checkbox && !checked ==> emitted == List(RemoveFirst(Normalise(value), Str(optionValue)))
  {
    var values := Normalise(value);
    if fieldType == Checkbox {
      var newValues := values;
      if checked {
        if Str(optionValue) !in newValues {
          newValues := newValues + [Str(optionValue)];
        }
      } else {
        var index := IndexOf(newValues, Str(optionValue));
        if index != -1 {
          RemoveFirstAt(newValues, Str(optionValue), index);
          newValues := newValues[..index] + newValues[index + 1..];
        } else {
          RemoveFirstAbsent(newValues, Str(optionValue));
        }
      }
      emitted := List(newValues);
    } else {
      emitted := if checked then Str(optionValue) else Str("");
    }
  }

  /** Checking an option never introduces a duplicate, and the option ends up in
      the list; the entries already there keep their order. */
  lemma CheckAddsOnce(values: seq<Value>, option: Value)
    requires NoDuplicates(values)
    ensures var r := if option in values then values else values + [option];
      NoDuplicates(r) && option in r && r[..|values|] == values
  {
  }

  /** On a list without duplicates, unchecking takes the option out entirely and
      leaves every other entry in place and in order. */
  lemma {:induction false} UncheckRemoves(values: seq<Value>, option: Value)
    requires NoDuplicates(values)
    ensures option !in RemoveFirst(values, option)
    ensures forall v :: v != option ==> (v in RemoveFirst(values, option) <==> v in values)
    ensures NoDuplicates(RemoveFirst(values, option))
  {
    RemoveFirstCounts(values, option);
    if option in values {
      var i :| 0 <= i < |values| && values[i] == option;
      assert option !in values[..i];
      RemoveFirstAt(values, option, i);
      var r := RemoveFirst(values, option);
      assert r == values[..i] + values[i + 1..];
      forall a, b | 0 <= a < b < |r|
        ensures r[a] != r[b]
      {
        var a' := if a < i then a else a + 1;
        var b' := if b < i then b else b + 1;
        assert r[a] == values[a'] && r[b] == values[b'];
      }
      assert option !in values[i + 1..];
    }
  }

  /** Checking an option that was not chosen and then unchecking it restores the list. */
  lemma CheckThenUncheck(values: seq<Value>, option: Value)
    requires option !in values
    ensures RemoveFirst(values + [option], option) == values
  {
    RemoveFirstAt(values + [option], option, |values|);
    assert (values + [option])[..|values|] == values;
  }

  /** The "Other" text box's `onChange` (`handleOtherChange`): the text is kept in
      `otherValue`, and the list loses every "Other" marker and regains exactly
      one iff the text is non-empty. */
  method HandleOtherChange(value: Value, text: string) returns (otherValue: string, emitted: seq<Value>)
    ensures otherValue == text
    ensures OtherMarker in emitted <==> text != ""
    ensures multiset(emitted)[OtherMarker] == (if text != "" then 1 else 0)
    ensures forall v :: v != OtherMarker ==> multiset(emitted)[v] == multiset(Normalise(value))[v]
    ensures |emitted| == |RemoveAll(Normalise(value), OtherMarker)| + (if text != "" then 1 else 0)
    ensures emitted[..|RemoveAll(Normalise(value), OtherMarker)|] == RemoveAll(Normalise(value), OtherMarker)
  {
    otherValue := text;
    var values := Normalise(value);
    var newValues := RemoveAll(values, OtherMarker);
    assert multiset(newValues)[OtherMarker] == 0;
    if text != "" {
      newValues := newValues + [OtherMarker];
    }
    emitted := newValues;
  }

  /** The "Other" checkbox's own `onChange`: the list edit of `handleCheckboxChange`,
      and unchecking also empties the typed text. */
  method HandleOtherToggle(fieldType: FieldType, value: Value, checked: bool, otherValue: string)
    returns (emitted: Value, newOtherValue: string)
    ensures newOtherValue == (if checked then otherValue else "")
    ensures fieldType != Checkbox ==> emitted == (if checked then OtherMarker else Str(""))
    ensures fieldType == Checkbox && checked ==>
      emitted == List(if OtherMarker in Normalise(value) then Normalise(value) else Normalise(value) + [OtherMarker])
    ensures fieldType == Checkbox && !checked ==> emitted == List(RemoveFirst(Normalise(value), OtherMarker))
    ensures fieldType == Checkbox && !checked && NoDuplicates(Normalise(value)) ==>
      emitted.List? && OtherMarker !in emitted.items
    ensures fieldType == Checkbox && checked ==> emitted.List? && OtherMarker in emitted.items
  {
    emitted := HandleCheckboxChange(fieldType, value, "__other__", checked);
    if fieldType == Checkbox && !checked && NoDuplicates(Normalise(value)) {
      UncheckRemoves(Normalise(value), OtherMarker);
    }
    newOtherValue := if checked then otherValue else "";
  }
}
