/** Info strings read back what was written. */
module InfoStrings {
  import opened Text
  import opened Lines
  import opened BlockParser
  import opened BlockSerializer

  function FieldWords(fields: seq<Field>): seq<string> {
    if fields == [] then []
    else
      var f := fields[|fields| - 1];
      FieldWords(fields[..|fields| - 1]) + (if f.value.Some? then [f.key + "=" + f.value.value] else [])
  }

  lemma {:induction false} FieldsTextIsSpaced(fields: seq<Field>)
    ensures FieldsText(fields) == Spaced(FieldWords(fields))
  {
    if fields != [] {
      var f := fields[|fields| - 1];
      var init := FieldWords(fields[..|fields| - 1]);
      FieldsTextIsSpaced(fields[..|fields| - 1]);
      if f.value.Some? {
        var w := f.key + "=" + f.value.value;
        SpacedAppend(init, [w]);
        assert Spaced([w]) == " " + w + "";
      } else {
        assert init + [] == init;
      }
    }
  }

  predicate Unspaced(value: Option<string>) {
    value.Some? ==> NoWhitespace(value.value)
  }

  /** The written word is one word, and its key ends at its first `=`. */
  predicate CleanField(f: Field) {
    Word(f.key) && '=' !in f.key && Unspaced(f.value)
  }

  predicate CleanFields(fields: seq<Field>) {
    && (forall i | 0 <= i < |fields| :: CleanField(fields[i]))
    && (forall i, j | 0 <= i < j < |fields| :: fields[i].key != fields[j].key)
  }

  lemma CleanPush(fields: seq<Field>, f: Field)
    requires CleanFields(fields) && CleanField(f) && forall i | 0 <= i < |fields| :: fields[i].key != f.key
    ensures CleanFields(fields + [f])
  {
  }

  lemma {:induction false} FieldWordsAreWords(fields: seq<Field>)
    requires CleanFields(fields)
    ensures Words(FieldWords(fields))
  {
    if fields != [] {
      FieldWordsAreWords(fields[..|fields| - 1]);
    }
  }

  lemma AttributesOfPush(words: seq<string>, key: string, value: string)
    requires '=' !in key
    ensures AttributesOf(words + [key + "=" + value]) == AttributesOf(words)[key := value]
  {
    var all := words + [key + "=" + value];
    assert all[..|all| - 1] == words;
    SplitOnceCharIs(key, '=', value);
  }

  /** Each field is found under its key, and no other key is. */
  lemma {:induction false} FieldsAreFound(fields: seq<Field>)
    requires CleanFields(fields)
    ensures forall i | 0 <= i < |fields| :: Lookup(AttributesOf(FieldWords(fields)), fields[i].key) == fields[i].value
    ensures forall k | k in AttributesOf(FieldWords(fields)) :: exists f | f in fields :: f.key == k
  {
    if fields != [] {
      var init, f := fields[..|fields| - 1], fields[|fields| - 1];
      assert fields == init + [f];
      FieldsAreFound(init);
      if f.value.Some? {
        AttributesOfPush(FieldWords(init), f.key, f.value.value);
      } else {
        assert FieldWords(init) + [] == FieldWords(init);
      }
    }
  }

  lemma InfoStringIs(blockType: string, words: seq<string>)
    requires Word(blockType) && Words(words)
    ensures InfoString(blockType + Spaced(words)) == (blockType, AttributesOf(words))
  {
    SplitWhitespaceCons(blockType, Spaced(words));
    SplitSpaced(words);
    assert ([blockType] + words)[1..] == words;
  }

  /** The text is on one line and survives trimming. */
  lemma InfoTextEnds(blockType: string, words: seq<string>)
    requires Word(blockType) && Words(words)
    ensures var s := blockType + Spaced(words); OneLine(s) && s != "" && Trimmed(s)
  {
    NoWhitespaceOneLine(blockType);
    if words != [] { SpacedEnd(words); }
  }

  lemma ExecutableIsWord(blockType: string)
    requires Executable(blockType)
    ensures Word(blockType)
  {
  }

  /** An opening line is read back to its type and fields. */
  lemma HeadOpens(ticks: string, blockType: string, fields: seq<Field>)
    requires ticks == "```" && Executable(blockType) && CleanFields(fields)
    ensures var head := ticks + (blockType + FieldsText(fields));
            && OpensBlock(head) == Opening(blockType, AttributesOf(FieldWords(fields)))
            && OneLine(head) && StripCr(head) == head
  {
    var info := blockType + FieldsText(fields);
    var head := ticks + info;
    FieldsTextIsSpaced(fields);
    FieldWordsAreWords(fields);
    ExecutableIsWord(blockType);
    InfoTextEnds(blockType, FieldWords(fields));
    InfoStringIs(blockType, FieldWords(fields));
    TrimTrimmed(head);
    assert head[3..] == info && head[..3] == ticks;
    TrimTrimmed(info);
  }
}
