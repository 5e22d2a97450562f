/** `get_key` and `get_keyvalue`: the split of a token's first line at its first `=`. */
module KeyValues {
  import opened Common
  import opened Text

  datatype KeyValue = KeyValue(key: string, value: string)

  /** `get_key`: the stripped text before the first `=`, which may be empty. */
  function GetKey(first: Line): (r: Result<string>)
    ensures r.Err? <==> '=' !in first.text
    ensures r.Err? ==> r.error == ErrorAt(first)
  {
    if '=' in first.text then Ok(Strip(first.text[..IndexOf(first.text, '=')]))
    else Err(ErrorAt(first))
  }

  /** `get_keyvalue`: the stripped texts on both sides of the first `=`; a line without `=`
      or with an empty key is a parse error at that line. */
  function GetKeyValue(first: Line): (r: Result<KeyValue>)
    ensures r.Err? ==> r.error == ErrorAt(first)
  {
    if '=' !in first.text then Err(ErrorAt(first))
    else
      var i := IndexOf(first.text, '=');
      var key := Strip(first.text[..i]);
      if key == [] then Err(ErrorAt(first))
      else Ok(KeyValue(key, Strip(first.text[i + 1..])))
  }

  /** What `get_keyvalue` accepts and returns, stated through a decomposition of the line:
      it succeeds exactly when the line is `k = v` with `k` free of `=` and not blank, and then
      returns `k` and `v` stripped. It agrees with `get_key` whenever it succeeds. */
  lemma GetKeyValueSplits(first: Line)
    ensures GetKeyValue(first).Ok? <==>
      exists i :: 0 <= i < |first.text| && first.text[i] == '=' && '=' !in first.text[..i]
                  && Strip(first.text[..i]) != []
    ensures GetKeyValue(first).Ok? ==>
      exists i :: 0 <= i < |first.text| && first.text[i] == '=' && '=' !in first.text[..i]
                  && GetKeyValue(first).value == KeyValue(Strip(first.text[..i]), Strip(first.text[i + 1..]))
    ensures GetKeyValue(first).Ok? ==> GetKey(first) == Ok(GetKeyValue(first).value.key)
  {
    var s := first.text;
    if '=' in s {
      var i := IndexOf(s, '=');
      forall j | 0 <= j < |s| && s[j] == '=' && '=' !in s[..j]
        ensures j == i
      {
      }
      if GetKeyValue(first).Ok? {
        assert GetKey(first) == Ok(Strip(s[..i]));
      }
    } else {
      forall j | 0 <= j < |s|
        ensures s[j] != '='
      {
        assert s[j] in s;
      }
    }
  }

  /** The line `key = value` splits back into `key` and `value`, whatever the value holds. */
  lemma GetKeyValueRoundTrip(n: nat, key: string, value: string)
    requires key != [] && '=' !in key && !IsSpace(key[0]) && !IsSpace(key[|key| - 1])
    requires value == [] || (!IsSpace(value[0]) && !IsSpace(value[|value| - 1]))
    ensures GetKeyValue(Line(n, key + " = " + value)) == Ok(KeyValue(key, value))
  {
    SplitsAfterKey(key, value);
    StripKeySpace(key);
    StripSpaceValue(value);
  }

  lemma StripKeySpace(key: string)
    requires key != [] && !IsSpace(key[0]) && !IsSpace(key[|key| - 1])
    ensures Strip(key + " ") == key
  {
    StripPadded([], key, " ");
    assert [] + key + " " == key + " ";
  }

  lemma StripSpaceValue(value: string)
    requires value == [] || (!IsSpace(value[0]) && !IsSpace(value[|value| - 1]))
    ensures Strip(" " + value) == value
  {
    if value == [] {
      StripEmptyIffBlank(" ");
    } else {
      StripPadded(" ", value, []);
      assert " " + value + [] == " " + value;
    }
  }

  lemma SplitsAfterKey(key: string, value: string)
    requires '=' !in key
    ensures var s := key + " = " + value;
      && '=' in s && IndexOf(s, '=') == |key| + 1
      && s[..|key| + 1] == key + " " && s[|key| + 2..] == " " + value
  {
    var s := key + " = " + value;
    assert s[|key| + 1] == '=';
    assert s[..|key| + 1] == key + " ";
    assert '=' !in key + " ";
    IndexOfIs(s, '=', |key| + 1);
    assert s[|key| + 2..] == " " + value;
  }
}
