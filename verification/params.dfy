/**
 * The parameter table that the parameter pass walks: the request's
 * parameters, then a synthetic `_json` entry holding a JSON body, then one
 * entry per multipart file field holding the `$`-joined file digests.
 */
module Parameters {
  import opened Wrappers
  import opened JavaStrings
  import opened Requests

  /** `getJson`: the body text, for a POST whose content type announces JSON. */
  function GetJson(req: Request): (r: Option<string>)
    ensures r.Some? ==> r.value == req.body
    ensures r.Some? <==>
      EqualsIgnoreCase(req.httpMethod, "POST") &&
      exists ct :: GetHeader(req.headers, "content-type") == Some(ct) && Contains(ct, "application/json")
  {
    if !EqualsIgnoreCase(req.httpMethod, "POST") then None
    else
      match GetHeader(req.headers, "content-type")
      case None => None
      case Some(contentType) =>
        if IndexOf(contentType, "application/json") < 0 then None else Some(req.body)
  }

  /** The file digests of one field joined by `$`, with no trailing `$`. */
  function Join(digests: seq<string>): string {
    if |digests| == 0 then ""
    else if |digests| == 1 then digests[0]
    else Join(digests[..|digests| - 1]) + "$" + digests[|digests| - 1]
  }

  /**
   * The inner loop of `fileUpload`: append each digest and a `$`, then drop
   * the last character if there is one.
   */
  method JoinDigests(digests: seq<string>) returns (joined: string)
    ensures joined == Join(digests)
  {
    var sb := "";
    for i := 0 to |digests|
      invariant i == 0 ==> sb == ""
      invariant i > 0 ==> sb == Join(digests[..i]) + "$"
    {
      sb := sb + digests[i] + "$";
      assert digests[..i + 1][..i] == digests[..i];
    }
    assert digests[..|digests|] == digests;
    if |sb| > 0 {
      sb := sb[..|sb| - 1];
    }
    joined := sb;
  }

  /** A Base64 digest never contains `$`, so the joined digests split back apart. */
  lemma {:induction false} SplitJoin(digests: seq<string>)
    requires |digests| > 0
    requires forall i :: 0 <= i < |digests| ==> '$' !in digests[i]
    ensures Split(Join(digests), '$') == digests
  {
    var n := |digests|;
    if n == 1 {
      SplitWithoutSeparator(digests[0], '$');
    } else {
      var init := digests[..n - 1];
      SplitJoin(init);
      assert Join(digests) == Join(init) + ['$'] + digests[n - 1];
      SplitAtSeparator(Join(init), digests[n - 1], '$');
      SplitWithoutSeparator(digests[n - 1], '$');
      assert init + [digests[n - 1]] == digests;
    }
  }

  /** Each file field becomes one entry holding its joined digests. */
  function DigestEntries(files: map<string, seq<string>>): map<string, seq<string>> {
    map field | field in files :: [Join(files[field])]
  }

  /** The request's parameters with the `_json` entry added when there is a JSON body. */
  function WithJson(req: Request): map<string, seq<string>> {
    match GetJson(req)
    case Some(json) => if json != "" then req.params["_json" := [json]] else req.params
    case None => req.params
  }

  /** The table `appendRequestParams` walks. */
  function EffectiveParams(req: Request): map<string, seq<string>> {
    if req.files.None? then WithJson(req) else WithJson(req) + DigestEntries(req.files.value)
  }

  /** The conditions under which a `_json` entry is written. */
  ghost predicate JsonApplies(req: Request) {
    && EqualsIgnoreCase(req.httpMethod, "POST")
    && (exists ct :: GetHeader(req.headers, "content-type") == Some(ct) && Contains(ct, "application/json"))
    && req.body != ""
  }

  /**
   * Unless a file field is itself named `_json`, the table's `_json` entry
   * is the body exactly when the JSON conditions hold, and is whatever the
   * request's own parameters had otherwise.
   */
  lemma JsonEntry(req: Request)
    requires req.files.None? || "_json" !in req.files.value
    ensures JsonApplies(req) ==> "_json" in EffectiveParams(req) && EffectiveParams(req)["_json"] == [req.body]
    ensures !JsonApplies(req) ==>
      ("_json" in EffectiveParams(req) <==> "_json" in req.params) &&
      ("_json" in req.params ==> EffectiveParams(req)["_json"] == req.params["_json"])
  {
  }

  /**
   * File fields overwrite whatever else had their name; every other entry
   * apart from `_json` is the request's own parameter.
   */
  lemma FileEntries(req: Request)
    ensures req.files.Some? ==> forall f :: f in req.files.value ==>
      f in EffectiveParams(req) && EffectiveParams(req)[f] == [Join(req.files.value[f])]
    ensures forall k :: k != "_json" && (req.files.None? || k !in req.files.value) ==>
      (k in EffectiveParams(req) <==> k in req.params) &&
      (k in req.params ==> EffectiveParams(req)[k] == req.params[k])
  {
  }

  /** The `TreeMap<String, String[]>` the parameter pass is built in. */
  class ParamTable {
    var entries: map<string, seq<string>>

    constructor ()
      ensures entries == map[]
    {
      entries := map[];
    }

    /** `putAll`: entries of `m` replace same-named ones. */
    method PutAll(m: map<string, seq<string>>)
      modifies this
      ensures entries == old(entries) + m
    {
      entries := entries + m;
    }

    /** `put`. */
    method Put(name: string, values: seq<string>)
      modifies this
      ensures entries == old(entries)[name := values]
    {
      entries := entries[name := values];
    }
  }

  /** The digest entries of the fields in `done`. */
  function DigestEntriesOf(files: map<string, seq<string>>, done: set<string>): map<string, seq<string>> {
    map field | field in files && field in done :: [Join(files[field])]
  }

  lemma DigestEntriesStep(base: map<string, seq<string>>, files: map<string, seq<string>>, done: set<string>, name: string)
    requires name in files
    ensures (base + DigestEntriesOf(files, done))[name := [Join(files[name])]]
         == base + DigestEntriesOf(files, done + {name})
  {
  }

  /** `fileUpload`: for a multipart request, put each field's joined digests. */
  method FileUpload(files: Option<map<string, seq<string>>>, table: ParamTable)
    modifies table
    ensures files.None? ==> table.entries == old(table.entries)
    ensures files.Some? ==> table.entries == old(table.entries) + DigestEntries(files.value)
  {
    if files.None? {
      return;
    }
    var multiFileMap := files.value;
    var remaining := multiFileMap.Keys;
    ghost var done: set<string> := {};
    while remaining != {}
      invariant remaining !! done && remaining + done == multiFileMap.Keys
      invariant table.entries == old(table.entries) + DigestEntriesOf(multiFileMap, done)
      decreases remaining
    {
      var name :| name in remaining;
      var joined := JoinDigests(multiFileMap[name]);
      DigestEntriesStep(old(table.entries), multiFileMap, done, name);
      table.Put(name, [joined]);
      remaining := remaining - {name};
      done := done + {name};
    }
    assert DigestEntriesOf(multiFileMap, done) == DigestEntries(multiFileMap);
  }
}
