/** `contentsForLanguage`: the page copy of one language as a key-to-text map. */
module Contents {
  import opened Types

  /** Entry `i` is of `language` and has `key`. */
  predicate Matches(contents: seq<Content>, language: string, key: string, i: int)
    requires 0 <= i < |contents|
  {
    contents[i].language == language && contents[i].key == key
  }

  /** Entry `i` is the last entry of `language` with `key`. */
  ghost predicate IsLastMatch(contents: seq<Content>, language: string, key: string, i: int) {
    && 0 <= i < |contents|
    && Matches(contents, language, key, i)
    && forall j :: i < j < |contents| ==> !Matches(contents, language, key, j)
  }

  /**
   * The `reduce` over the content list: entries of other languages are skipped and
   * each matching entry sets its key, so a later entry overwrites an earlier one.
   */
  function ContentsForLanguage(contents: seq<Content>, language: string): (copy: map<string, string>)
    ensures forall key :: key in copy <==>
      exists i :: 0 <= i < |contents| && Matches(contents, language, key, i)
    ensures forall key :: key in copy ==>
      exists i :: IsLastMatch(contents, language, key, i) && copy[key] == contents[i].text
    decreases |contents|
  {
    if |contents| == 0 then map[]
    else
      var n := |contents| - 1;
      var init := contents[..n];
      var acc := ContentsForLanguage(init, language);
      assert forall i, key :: 0 <= i < n ==>
        (Matches(init, language, key, i) <==> Matches(contents, language, key, i));
      var entry := contents[n];
      if entry.language != language then
        assert forall key :: !Matches(contents, language, key, n);
        assert forall key, i :: IsLastMatch(init, language, key, i) ==> IsLastMatch(contents, language, key, i);
        acc
      else
        assert IsLastMatch(contents, language, entry.key, n);
        assert forall key, i :: key != entry.key && IsLastMatch(init, language, key, i) ==>
          IsLastMatch(contents, language, key, i);
        acc[entry.key := entry.text]
  }

  /** An empty content list gives an empty map. */
  lemma NoContentsNoCopy(language: string)
    ensures ContentsForLanguage([], language) == map[]
  {
  }

  /** Entries of other languages do not affect the result. */
  lemma {:induction false} OtherLanguagesIgnored(contents: seq<Content>, extra: Content, language: string)
    requires extra.language != language
    ensures ContentsForLanguage(contents + [extra], language) == ContentsForLanguage(contents, language)
  {
    assert (contents + [extra])[..|contents|] == contents;
  }
}
