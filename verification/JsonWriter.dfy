/** The key-sorting serializer, appending to a string builder. */
module JsonWriter {
  import opened JsonText

  class StringBuilder {
    var text: Text

    constructor ()
      ensures text == []
    {
      text := [];
    }

    method Append(more: Text)
      modifies this
      ensures text == old(text) + more
    {
      text := text + more;
    }
  }

  method Stringify(value: Value) returns (text: Text)
    ensures text == Write(value)
  {
    var out := new StringBuilder();
    AppendValue(value, out);
    text := out.text;
  }

  method AppendValue(value: Value, out: StringBuilder)
    modifies out
    ensures out.text == old(out.text) + Write(value)
    decreases value, 1
  {
    match value {
      case Null => out.Append(NULL);
      case Bool(b) => out.Append(if b then TRUE else FALSE);
      case Number(decimal) => out.Append(decimal);
      case String(text) => AppendQuoted(text, out);
      case Array(items) => AppendArray(value, out);
      case Object(members) => AppendObject(value, out);
    }
  }

  /** Joining one text more: the comma the `first` flag decides. */
  lemma {:induction false} JoinAppend(texts: seq<Text>, i: nat)
    requires i < |texts|
    ensures Join(texts[..i + 1]) == Join(texts[..i]) + (if i == 0 then [] else [COMMA]) + texts[i]
    decreases |texts|
  {
    if i == 0 {
      assert texts[..1] == [texts[0]];
    } else {
      var tail := texts[1..];
      JoinAppend(tail, i - 1);
      assert tail[..i] == texts[..i + 1][1..];
      assert tail[..i - 1] == texts[..i][1..];
    }
  }

  lemma OneTextMore(start: Text, texts: seq<Text>, i: nat, before: Text, after: Text)
    requires i < |texts| && before == start + Join(texts[..i])
    requires after == before + (if i == 0 then [] else [COMMA]) + texts[i]
    ensures after == start + Join(texts[..i + 1])
  {
    JoinAppend(texts, i);
    assert after == start + (Join(texts[..i]) + (if i == 0 then [] else [COMMA]) + texts[i]);
  }

  method AppendArray(value: Value, out: StringBuilder)
    requires value.Array?
    modifies out
    ensures out.text == old(out.text) + Write(value)
    decreases value, 0
  {
    var items := value.items;
    ghost var texts := ItemTexts(items);
    out.Append([LBRACKET]);
    var first := true;
    for i := 0 to |items|
      invariant first == (i == 0)
      invariant out.text == old(out.text) + [LBRACKET] + Join(texts[..i])
    {
      ghost var before := out.text;
      if !first {
        out.Append([COMMA]);
      }
      first := false;
      AppendValue(items[i], out);
      OneTextMore(old(out.text) + [LBRACKET], texts, i, before, out.text);
    }
    assert texts[..|items|] == texts;
    out.Append([RBRACKET]);
  }

  lemma ObjectWritten(value: Value, start: Text)
    requires value.Object?
    ensures var keys := SortedKeys(value.members.Keys);
            start + [LBRACE] + Join(MemberTexts(value, keys)) + [RBRACE] == start + Write(value)
  {
    var texts := Join(MemberTexts(value, SortedKeys(value.members.Keys)));
    assert Write(value) == [LBRACE] + texts + [RBRACE];
    assert start + [LBRACE] + texts + [RBRACE] == start + ([LBRACE] + texts + [RBRACE]);
  }

  method AppendObject(value: Value, out: StringBuilder)
    requires value.Object?
    modifies out
    ensures out.text == old(out.text) + Write(value)
    decreases value, 0
  {
    out.Append([LBRACE]);
    var keys := SortKeys(value.members.Keys);
    AppendMembers(value, keys, MemberTexts(value, keys), out);
    out.Append([RBRACE]);
    ObjectWritten(value, old(out.text));
  }

  ghost predicate IsMemberText(value: Value, key: Text, text: Text) {
    value.Object? && key in value.members && text == Quote(key) + [COLON] + Write(value.members[key])
  }

  method AppendMembers(value: Value, keys: seq<Text>, ghost texts: seq<Text>, out: StringBuilder)
    requires value.Object? && |texts| == |keys|
    requires forall i :: 0 <= i < |keys| ==> IsMemberText(value, keys[i], texts[i])
    modifies out
    ensures out.text == old(out.text) + Join(texts)
    decreases value, 0, 1
  {
    var first := true;
    for i := 0 to |keys|
      invariant first == (i == 0)
      invariant out.text == old(out.text) + Join(texts[..i])
    {
      ghost var before := out.text;
      if !first {
        out.Append([COMMA]);
      }
      first := false;
      assert IsMemberText(value, keys[i], texts[i]);
      AppendMember(value, keys[i], texts[i], out);
      OneTextMore(old(out.text), texts, i, before, out.text);
    }
    assert texts[..|keys|] == texts;
  }

  method AppendMember(value: Value, key: Text, ghost text: Text, out: StringBuilder)
    requires IsMemberText(value, key, text)
    modifies out
    ensures out.text == old(out.text) + text
    decreases value, 0, 0
  {
    AppendQuoted(key, out);
    out.Append([COLON]);
    AppendValue(value.members[key], out);
  }

  lemma QuoteStep(value: Text, i: nat, before: Text, after: Text)
    requires i < |value| && after == before + Escape(value[i])
    ensures after + QuoteBody(value[i + 1..]) == before + QuoteBody(value[i..])
  {
    assert value[i..][1..] == value[i + 1..];
    assert QuoteBody(value[i..]) == Escape(value[i]) + QuoteBody(value[i + 1..]);
  }

  method AppendQuoted(value: Text, out: StringBuilder)
    modifies out
    ensures out.text == old(out.text) + Quote(value)
  {
    ghost var goal := old(out.text) + [QUOTE] + QuoteBody(value);
    out.Append([QUOTE]);
    assert value[0..] == value;
    for i := 0 to |value|
      invariant out.text + QuoteBody(value[i..]) == goal
    {
      ghost var before := out.text;
      out.Append(Escape(value[i]));
      QuoteStep(value, i, before, out.text);
    }
    assert out.text == goal;
    out.Append([QUOTE]);
  }

  /** The keys as an ascending list: a stand-in for `Collections.sort`, which any sort would fill alike. */
  method SortKeys(keys: set<Text>) returns (sorted: seq<Text>)
    ensures sorted == SortedKeys(keys)
  {
    sorted := [];
    var left := keys;
    while left != {}
      invariant left <= keys
      invariant Lists(sorted, keys - left)
      decreases left
    {
      var key :| key in left;
      InsertKeepsAscending(key, sorted);
      sorted := Insert(key, sorted);
      left := left - {key};
    }
    assert keys - left == keys;
    ListIsUnique(sorted, SortedKeys(keys), keys);
  }
}
