/**
 * The query-string parameter list (URLSearchParams) as an ordered list of
 * name/value pairs, with the `set`, `get` and `has` operations the
 * calculators use.
 */
module SearchParams {
  import opened Wrappers

  type Params = seq<(string, string)>

  /** No name occurs twice. */
  ghost predicate DistinctKeys(params: Params)
  {
    forall i, j :: 0 <= i < j < |params| ==> params[i].0 != params[j].0
  }

  /** `get(name)`: the value of the first pair with that name. */
  function Get(params: Params, name: string): (value: Option<string>)
    ensures value.None? <==> forall i :: 0 <= i < |params| ==> params[i].0 != name
    ensures value.Some? ==> exists i :: 0 <= i < |params| && params[i] == (name, value.value)
  {
    if |params| == 0 then None
    else if params[0].0 == name then Some(params[0].1)
    else
      var rest := Get(params[1..], name);
      assert forall i :: 1 <= i < |params| ==> params[1..][i - 1] == params[i];
      rest
  }

  /** `has(name)`. */
  function Has(params: Params, name: string): bool
  {
    Get(params, name).Some?
  }

  /** The pairs without any whose name is `name`. */
  function RemoveAll(params: Params, name: string): (rest: Params)
    ensures forall i :: 0 <= i < |rest| ==> rest[i].0 != name
    ensures forall k :: k != name ==> Get(rest, k) == Get(params, k)
    ensures DistinctKeys(params) ==> DistinctKeys(rest)
    ensures forall i :: 0 <= i < |rest| ==> rest[i] in params
  {
    if |params| == 0 then []
    else
      var tail := RemoveAll(params[1..], name);
      if params[0].0 == name then tail else [params[0]] + tail
  }

  /**
   * `set(name, value)`: the first pair with that name takes the value and
   * the later ones are removed; with no such pair, it is appended.
   */
  function Set(params: Params, name: string, value: string): (result: Params)
    ensures Get(result, name) == Some(value)
    ensures forall k :: k != name ==> Get(result, k) == Get(params, k)
    ensures DistinctKeys(params) ==> DistinctKeys(result)
    ensures forall i :: 0 <= i < |result| ==> result[i] in params || result[i] == (name, value)
  {
    if |params| == 0 then [(name, value)]
    else if params[0].0 == name then [(name, value)] + RemoveAll(params[1..], name)
    else [params[0]] + Set(params[1..], name, value)
  }

  /** `get` on a list with one more pair at the end. */
  lemma {:induction false} GetAppend(params: Params, entry: (string, string), name: string)
    ensures Get(params + [entry], name) ==
      if Get(params, name).Some? then Get(params, name)
      else if entry.0 == name then Some(entry.1)
      else None
    decreases |params|
  {
    if |params| > 0 && params[0].0 != name {
      assert (params + [entry])[1..] == params[1..] + [entry];
      GetAppend(params[1..], entry, name);
    }
  }

  /** In a list with distinct names, the last name does not occur before it. */
  lemma LastNameFresh(params: Params)
    requires DistinctKeys(params) && |params| > 0
    ensures DistinctKeys(params[..|params| - 1])
    ensures Get(params[..|params| - 1], params[|params| - 1].0).None?
  {
    var prefix := params[..|params| - 1];
    assert forall i :: 0 <= i < |prefix| ==> prefix[i] == params[i];
  }
}

/**
 * src/lib/url-state.ts: a calculator state (named numbers and an optional
 * mode) to and from query parameters. Numbers are written with a
 * number-to-text function `show` and read back with `parse`, the model's
 * stand-ins for Number.prototype.toString and parseFloat.
 */
module UrlState {
  import opened Wrappers
  import opened SearchParams

  /** A JavaScript number that may be NaN. */
  datatype JsNumber = Num(value: real) | NaN

  datatype CalculatorState = CalculatorState(values: map<string, JsNumber>, mode: Option<string>)

  /** The parameter encodeStateToUrl writes for a value: none for NaN or an absent key. */
  function EncodedValue(values: map<string, JsNumber>, key: string, show: real -> string): Option<string>
  {
    if key in values && values[key].Num? then Some(show(values[key].value)) else None
  }

  /** `if (state.mode)`: present and not the empty string. */
  predicate HasMode(state: CalculatorState)
  {
    state.mode.Some? && state.mode.value != ""
  }

  /** What an encoding of the state holds, whatever order the values were visited in. */
  ghost predicate Encodes(params: Params, state: CalculatorState, show: real -> string)
  {
    && DistinctKeys(params)
    && (forall key :: key != "mode" ==> Get(params, key) == EncodedValue(state.values, key, show))
    && Get(params, "mode") == if HasMode(state) then state.mode else EncodedValue(state.values, "mode", show)
  }

  /**
   * encodeStateToUrl: one parameter per non-NaN value, visited in some
   * order, then `mode` when the state has one (overriding a value that is
   * itself named "mode").
   */
  method EncodeStateToUrl(state: CalculatorState, show: real -> string) returns (params: Params)
    ensures Encodes(params, state, show)
  {
    params := [];
    var pending := state.values.Keys;
    while pending != {}
      invariant pending <= state.values.Keys
      invariant DistinctKeys(params)
      invariant forall key ::
        Get(params, key) == (if key in pending then None else EncodedValue(state.values, key, show))
      decreases pending
    {
      var key :| key in pending;
      if state.values[key].Num? {
        params := Set(params, key, show(state.values[key].value));
      }
      pending := pending - {key};
    }
    if HasMode(state) {
      params := Set(params, "mode", state.mode.value);
    }
  }

  /** What decoding the first entries of a parameter list yields. */
  function Decoded(params: Params, parse: string -> Option<real>): CalculatorState
  {
    if |params| == 0 then CalculatorState(map[], None)
    else
      var before := Decoded(params[..|params| - 1], parse);
      var (key, value) := params[|params| - 1];
      if key == "mode" then before.(mode := Some(value))
      else match parse(value)
        case Some(x) => before.(values := before.values[key := Num(x)])
        case None => before
  }

  /**
   * decodeStateFromUrl: `mode` goes to the state's mode, every other
   * parameter that parses becomes a value; later parameters overwrite
   * earlier ones.
   */
  method DecodeStateFromUrl(params: Params, parse: string -> Option<real>) returns (state: CalculatorState)
    ensures state == Decoded(params, parse)
    ensures "mode" !in state.values
    ensures forall key :: key in state.values ==> state.values[key].Num?
  {
    var values: map<string, JsNumber> := map[];
    state := CalculatorState(values, None);
    var i := 0;
    while i < |params|
      invariant 0 <= i <= |params|
      invariant state == Decoded(params[..i], parse)
      invariant "mode" !in state.values
      invariant forall key :: key in state.values ==> state.values[key].Num?
    {
      assert params[..i + 1][..i] == params[..i];
      var (key, value) := params[i];
      if key == "mode" {
        state := state.(mode := Some(value));
      } else {
        var numericValue := parse(value);
        if numericValue.Some? {
          state := state.(values := state.values[key := Num(numericValue.value)]);
        }
      }
      i := i + 1;
    }
    assert params[..|params|] == params;
  }

  /** hasUrlParameters: true for any parameter, `mode` included. */
  method HasUrlParameters(params: Params) returns (result: bool)
    ensures result <==> |params| > 0
  {
    var i := 0;
    while i < |params|
      invariant 0 <= i <= |params|
      invariant forall j :: 0 <= j < i ==> params[j].0 == "mode"
    {
      if params[i].0 != "mode" {
        return true;
      }
      i := i + 1;
    }
    result := Has(params, "mode");
  }

  /** On a list whose names are distinct, the decoded mode is the `mode` parameter. */
  lemma {:induction false} DecodedMode(params: Params, parse: string -> Option<real>)
    requires DistinctKeys(params)
    ensures Decoded(params, parse).mode == Get(params, "mode")
    decreases |params|
  {
    if |params| > 0 {
      var prefix := params[..|params| - 1];
      var last := params[|params| - 1];
      assert params == prefix + [last];
      LastNameFresh(params);
      DecodedMode(prefix, parse);
      GetAppend(prefix, last, "mode");
    }
  }

  /** On a list whose names are distinct, each decoded value is the parsed `get` of its name. */
  lemma {:induction false} DecodedValue(params: Params, parse: string -> Option<real>, key: string)
    requires DistinctKeys(params) && key != "mode"
    ensures var values := Decoded(params, parse).values;
      && (key in values <==> Get(params, key).Some? && parse(Get(params, key).value).Some?)
      && (key in values ==> values[key] == Num(parse(Get(params, key).value).value))
    decreases |params|
  {
    if |params| > 0 {
      var prefix := params[..|params| - 1];
      var last := params[|params| - 1];
      assert params == prefix + [last];
      LastNameFresh(params);
      DecodedValue(prefix, parse, key);
      GetAppend(prefix, last, key);
    }
  }

  /** Entry i is named `key` and its value parses. */
  predicate ParsesAt(params: Params, parse: string -> Option<real>, key: string, i: int)
    requires 0 <= i < |params|
  {
    params[i].0 == key && parse(params[i].1).Some?
  }

  /**
   * On any list, duplicates included: a name other than "mode" is decoded
   * exactly when some entry with that name parses, and its value is the
   * parse of the last such entry.
   */
  lemma {:induction false} DecodedLastValue(params: Params, parse: string -> Option<real>, key: string)
    requires key != "mode"
    ensures var values := Decoded(params, parse).values;
      && (key in values <==> exists i :: 0 <= i < |params| && ParsesAt(params, parse, key, i))
      && (key in values ==>
            exists i :: 0 <= i < |params| && ParsesAt(params, parse, key, i)
              && values[key] == Num(parse(params[i].1).value)
              && forall j :: i < j < |params| ==> !ParsesAt(params, parse, key, j))
    decreases |params|
  {
    if |params| > 0 {
      var n := |params| - 1;
      var prefix := params[..n];
      assert forall i :: 0 <= i < n ==> prefix[i] == params[i];
      DecodedLastValue(prefix, parse, key);
      var values := Decoded(params, parse).values;
      if ParsesAt(params, parse, key, n) {
        assert values[key] == Num(parse(params[n].1).value);
      } else {
        var before := Decoded(prefix, parse).values;
        assert key in values <==> key in before;
        assert key in values ==> values[key] == before[key];
        if key in values {
          var i :| 0 <= i < n && ParsesAt(prefix, parse, key, i)
            && values[key] == Num(parse(prefix[i].1).value)
            && forall j :: i < j < n ==> !ParsesAt(prefix, parse, key, j);
          assert ParsesAt(params, parse, key, i) && values[key] == Num(parse(params[i].1).value);
          forall j | i < j < |params|
            ensures !ParsesAt(params, parse, key, j)
          {
            if j < n {
              assert !ParsesAt(prefix, parse, key, j);
            }
          }
        } else {
          forall i | 0 <= i < |params|
            ensures !ParsesAt(params, parse, key, i)
          {
            if i < n {
              assert !ParsesAt(prefix, parse, key, i);
            }
          }
        }
      }
    }
  }

  /**
   * On any list, duplicates included: the decoded mode is the value of the
   * last `mode` entry, and there is none without such an entry.
   */
  lemma {:induction false} DecodedLastMode(params: Params, parse: string -> Option<real>)
    ensures var mode := Decoded(params, parse).mode;
      && (mode.None? <==> forall i :: 0 <= i < |params| ==> params[i].0 != "mode")
      && (mode.Some? ==>
            exists i :: 0 <= i < |params| && params[i] == ("mode", mode.value)
              && forall j :: i < j < |params| ==> params[j].0 != "mode")
    decreases |params|
  {
    if |params| > 0 {
      var n := |params| - 1;
      var prefix := params[..n];
      assert forall i :: 0 <= i < n ==> prefix[i] == params[i];
      DecodedLastMode(prefix, parse);
      var mode := Decoded(params, parse).mode;
      if params[n].0 == "mode" {
        assert params[n] == ("mode", mode.value);
      } else {
        assert mode == Decoded(prefix, parse).mode;
        if mode.Some? {
          var i :| 0 <= i < n && prefix[i] == ("mode", mode.value)
            && forall j :: i < j < n ==> prefix[j].0 != "mode";
          assert params[i] == ("mode", mode.value);
        }
      }
    }
  }

  /**
   * Decoding after encoding gives back every non-NaN value not named
   * "mode", and the state's mode when it has one, provided that reading a
   * number's text gives back the number.
   */
  lemma RoundTrip(state: CalculatorState, show: real -> string, parse: string -> Option<real>,
                  params: Params, key: string)
    requires forall x :: parse(show(x)) == Some(x)
    requires Encodes(params, state, show)
    ensures var decoded := Decoded(params, parse);
      && (key != "mode" ==> (key in decoded.values <==> key in state.values && state.values[key].Num?))
      && (key != "mode" && key in decoded.values ==> decoded.values[key] == state.values[key])
      && (HasMode(state) ==> decoded.mode == state.mode)
  {
    DecodedMode(params, parse);
    if key != "mode" {
      DecodedValue(params, parse, key);
    }
  }
}
