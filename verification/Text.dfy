/** The comma-separated key lists that instructions carry: `strings.Join(keys, ",")` and
    `strings.Split(text, ",")`. */
module Text {

  predicate CommaFree(key: string)
  {
    forall i | 0 <= i < |key| :: key[i] != ','
  }

  predicate AllCommaFree(keys: seq<string>)
  {
    forall i | 0 <= i < |keys| :: CommaFree(keys[i])
  }

  function Join(keys: seq<string>): string
  {
    if keys == [] then ""
    else if |keys| == 1 then keys[0]
    else keys[0] + "," + Join(keys[1..])
  }

  function Split(text: string): (parts: seq<string>)
    ensures |parts| >= 1
  {
    if text == "" then [""]
    else
      var rest := Split(text[1..]);
      if text[0] == ',' then [""] + rest else [[text[0]] + rest[0]] + rest[1..]
  }

  lemma {:induction false} SplitCommaFree(key: string)
    requires CommaFree(key)
    ensures Split(key) == [key]
  {
    if key != "" {
      assert key[0] != ',';
      assert CommaFree(key[1..]) by { forall i | 0 <= i < |key[1..]| ensures key[1..][i] != ',' { assert key[1..][i] == key[i + 1]; } }
      SplitCommaFree(key[1..]);
      assert [key[0]] + key[1..] == key;
    }
  }

  lemma {:induction false} SplitAtComma(key: string, text: string)
    requires CommaFree(key)
    ensures Split(key + "," + text) == [key] + Split(text)
  {
    if key == "" {
      assert key + "," + text == "," + text;
      assert ("," + text)[1..] == text;
    } else {
      var whole := key + "," + text;
      assert whole[1..] == key[1..] + "," + text;
      assert CommaFree(key[1..]) by { forall i | 0 <= i < |key[1..]| ensures key[1..][i] != ',' { assert key[1..][i] == key[i + 1]; } }
      SplitAtComma(key[1..], text);
      assert whole[0] == key[0] != ',';
      assert [key[0]] + key[1..] == key;
      assert ([key[1..]] + Split(text))[1..] == Split(text);
    }
  }

  /** Splitting undoes joining exactly for the non-empty lists of comma-free keys. The empty list does not
      come back: it joins to the empty text, which splits into one empty key. */
  lemma {:induction false} SplitJoin(keys: seq<string>)
    requires AllCommaFree(keys)
    ensures Split(Join(keys)) == if keys == [] then [""] else keys
  {
    if |keys| == 1 {
      SplitCommaFree(keys[0]);
      assert keys == [keys[0]];
    } else if |keys| > 1 {
      forall i | 0 <= i < |keys[1..]| ensures CommaFree(keys[1..][i]) { assert keys[1..][i] == keys[i + 1]; }
      SplitJoin(keys[1..]);
      SplitAtComma(keys[0], Join(keys[1..]));
      assert [keys[0]] + keys[1..] == keys;
    }
  }

  /** Joining undoes splitting for every text. */
  lemma {:induction false} JoinSplit(text: string)
    ensures Join(Split(text)) == text
  {
    if text != "" {
      JoinSplit(text[1..]);
      var rest := Split(text[1..]);
      if text[0] == ',' {
        assert ([""] + rest)[1..] == rest;
        assert text == "," + text[1..];
      } else {
        var parts := [[text[0]] + rest[0]] + rest[1..];
        assert parts[1..] == rest[1..];
        assert text == [text[0]] + text[1..];
      }
    }
  }
}
