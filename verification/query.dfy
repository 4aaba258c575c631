/**
 * The test that decides whether a parameter already travels in the raw
 * query string (and is therefore left out of the parameter pass), and the
 * keys a query string actually carries, against which that test is judged.
 */
module QueryString {
  import opened Wrappers
  import opened JavaStrings

  /**
   * The occurrence of `name` at `i` is delimited as a key: it starts the
   * query or follows an `&`, and it ends the query or is followed by `=`.
   */
  predicate DelimitedAsKey(q: string, name: string, i: int)
    requires IsOccurrence(q, name, i)
  {
    (i == 0 || q[i - 1] == '&') && (i + |name| == |q| || q[i + |name|] == '=')
  }

  /**
   * `isQueryParameter`: only the FIRST occurrence of `name` in the query is
   * looked at; the answer is whether that occurrence is delimited as a key.
   */
  function IsQueryParameter(query: Option<string>, name: string): (r: bool)
    ensures query.None? || query.value == "" ==> !r
    ensures query.Some? && query.value != "" ==>
      (r <==> exists i :: IsFirstOccurrence(query.value, name, i) && DelimitedAsKey(query.value, name, i))
  {
    if query.None? || query.value == "" then false
    else
      var q := query.value;
      var index := IndexOf(q, name);
      if index < 0 then false
      else if index > 0 && q[index - 1] != '&' then false
      else
        var offset := index + |name|;
        assert forall i :: IsFirstOccurrence(q, name, i) ==> i == index;
        if offset >= |q| then true
        else q[offset] == '='
  }

  /** The key of one `&`-separated field: the text before its first `=`. */
  function FieldKey(field: string): string {
    Split(field, '=')[0]
  }

  /** `name` is the key of some field of the query. */
  predicate IsQueryKey(q: string, name: string) {
    exists field :: field in Split(q, '&') && FieldKey(field) == name
  }

  /**
   * What `isQueryParameter` accepts is a real key of the query, for any
   * name that contains neither `&` nor `=`.
   */
  lemma QueryParameterIsKey(q: string, name: string)
    requires IsQueryParameter(Some(q), name)
    requires '&' !in name && '=' !in name
    ensures IsQueryKey(q, name)
  {
    var i := IndexOf(q, name);
    var tail := q[i..];
    var rest := q[i + |name|..];
    assert tail == name + rest;
    var field := Split(tail, '&')[0];
    assert field in Split(q, '&') by {
      if i > 0 {
        assert q == q[..i - 1] + ['&'] + tail;
        SplitAtSeparator(q[..i - 1], tail, '&');
      } else {
        assert q == tail;
      }
    }
    SplitFirstPiece(name, rest, '&');
    assert field == name + Split(rest, '&')[0];
    if rest == [] {
      assert field == name;
      SplitWithoutSeparator(name, '=');
    } else {
      assert rest[0] == '=';
      var w := Split(rest[1..], '&')[0];
      assert field == name + ['='] + w;
      SplitAtSeparator(name, w, '=');
      SplitWithoutSeparator(name, '=');
    }
  }

  /**
   * Only the first occurrence counts: in `xa=1&a=2` the name `a` is a key,
   * but its first occurrence sits inside `xa`, so it is not recognised.
   */
  lemma FirstOccurrenceOnly()
    ensures IsQueryKey("xa=1&a=2", "a")
    ensures !IsQueryParameter(Some("xa=1&a=2"), "a")
  {
    var q := "xa=1&a=2";
    assert IsOccurrence(q, "a", 1);
    assert q[0..1] == "x";
    assert IndexOf(q, "a") == 1;
    assert q == "xa=1" + ['&'] + "a=2";
    SplitAtSeparator("xa=1", "a=2", '&');
    SplitWithoutSeparator("a=2", '&');
    assert "a=2" == "a" + ['='] + "2";
    SplitAtSeparator("a", "2", '=');
    SplitWithoutSeparator("a", '=');
    assert "a=2" in Split(q, '&');
  }
}
