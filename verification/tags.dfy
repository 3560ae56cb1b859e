/** `extraer_mejor_tag`: choosing a genre from Last.fm's top tags.

    Last.fm sends the tags as a list of objects, as a single object, or not at
    all. From a list the first tag whose lower-cased name is neither
    blacklisted nor shorter than three characters wins; a single object wins
    when its name is not blacklisted, whatever its length. The winner is
    returned title-cased. The later enrichment script blacklists twelve
    names, the earlier one seven. */
module Tags {
  import opened Wrappers
  import opened Ascii

  /** The `tags` argument: any falsy value (`None`, `[]`, `{}`, `""`), a list
      of tag objects given by their `name` (None where the key is missing),
      a non-empty tag object, or some other truthy value. */
  datatype TagsArg = NoTags | TagList(names: seq<Option<string>>) | TagObject(name: Option<string>) | OtherTags

  /** llenar_datos_v2.py */
  const BlacklistV2: seq<string> := [
    "seen live", "favorites", "my favorites", "albums i own",
    "spanish", "latino", "female vocalists", "male vocalists",
    "singer-songwriter", "under 2000 listeners", "all", "00s"]

  /** llenar_datos.py */
  const BlacklistV1: seq<string> := [
    "seen live", "favorites", "my favorites", "albums i own", "spanish", "latino", "all"]

  /** A list entry's name that the loop accepts. */
  predicate Qualifies(blacklist: seq<string>, name: string) {
    LowerStr(name) !in blacklist && |name| > 2
  }

  /** Title-casing changes only the case of letters. */
  lemma LowerTitle(s: string)
    ensures LowerStr(Title(s)) == LowerStr(s)
  {
    var t := Title(s);
    forall i | 0 <= i < |s|
      ensures LowerStr(t)[i] == LowerStr(s)[i]
    {
      LowerTitleChar(s[i], i > 0 && IsLetter(s[i - 1]));
    }
  }

  lemma LowerTitleChar(c: char, afterLetter: bool)
    ensures Lower(TitleChar(c, afterLetter)) == Lower(c)
  {
    if IsLower(c) && !afterLetter {
      assert TitleChar(c, afterLetter) == (c as int - 32) as char;
    }
  }

  /** The loop over a tag list: a missing `name` raises `KeyError`. */
  function FromList(blacklist: seq<string>, names: seq<Option<string>>): (r: Result<Option<string>>)
    ensures r.Ok? && r.value.Some? ==> Qualifies(blacklist, r.value.value)
  {
    if names == [] then Ok(None)
    else if names[0].None? then Err("KeyError: 'name'")
    else if Qualifies(blacklist, names[0].value) then
      LowerTitle(names[0].value);
      Ok(Some(Title(names[0].value)))
    else FromList(blacklist, names[1..])
  }

  /** The first qualifying name, title-cased, is the answer when every name
      before it is present and rejected. */
  lemma {:induction false} FromListPicksFirst(blacklist: seq<string>, names: seq<Option<string>>, i: nat)
    requires i < |names|
    requires forall j :: 0 <= j < i ==> names[j].Some? && !Qualifies(blacklist, names[j].value)
    requires names[i].Some? && Qualifies(blacklist, names[i].value)
    ensures FromList(blacklist, names) == Ok(Some(Title(names[i].value)))
  {
    if i > 0 {
      assert names[0].Some? && !Qualifies(blacklist, names[0].value);
      FromListPicksFirst(blacklist, names[1..], i - 1);
    }
  }

  /** A list where every name is present and rejected yields no genre. */
  lemma {:induction false} FromListNone(blacklist: seq<string>, names: seq<Option<string>>)
    requires forall j :: 0 <= j < |names| ==> names[j].Some? && !Qualifies(blacklist, names[j].value)
    ensures FromList(blacklist, names) == Ok(None)
  {
    if names != [] {
      FromListNone(blacklist, names[1..]);
    }
  }

  /** A missing name reached before any qualifying one makes the call raise. */
  lemma {:induction false} FromListMissingName(blacklist: seq<string>, names: seq<Option<string>>, i: nat)
    requires i < |names|
    requires forall j :: 0 <= j < i ==> names[j].Some? && !Qualifies(blacklist, names[j].value)
    requires names[i].None?
    ensures FromList(blacklist, names).Err?
  {
    if i > 0 {
      assert names[0].Some? && !Qualifies(blacklist, names[0].value);
      FromListMissingName(blacklist, names[1..], i - 1);
    }
  }

  /** `extraer_mejor_tag(tags)` against the given blacklist. For a tag object
      without a name, `tags.get("name", "")` passes the check and
      `None.title()` raises. */
  function BestTag(blacklist: seq<string>, tags: TagsArg): (r: Result<Option<string>>)
    requires "" !in blacklist
    ensures r.Ok? && r.value.Some? ==> LowerStr(r.value.value) !in blacklist
    ensures tags.NoTags? || tags.OtherTags? ==> r == Ok(None)
    ensures tags.TagObject? ==> (r.Err? <==> tags.name.None?)
    ensures tags.TagObject? && tags.name.Some? && LowerStr(tags.name.value) !in blacklist ==>
      r == Ok(Some(Title(tags.name.value)))
    ensures tags.TagObject? && tags.name.Some? && LowerStr(tags.name.value) in blacklist ==> r == Ok(None)
    ensures tags.TagList? ==> r == FromList(blacklist, tags.names)
    ensures tags.TagList? && r.Ok? && r.value.Some? ==> |r.value.value| > 2
  {
    match tags
    case NoTags => Ok(None)
    case OtherTags => Ok(None)
    case TagList(names) => FromList(blacklist, names)
    case TagObject(name) =>
      if name.None? then Err("AttributeError: 'NoneType' object has no attribute 'title'")
      else if LowerStr(name.value) !in blacklist then
        LowerTitle(name.value);
        Ok(Some(Title(name.value)))
      else Ok(None)
  }

  /** A single tag object is accepted whatever its length. */
  lemma ShortObjectAccepted()
    ensures BestTag(BlacklistV2, TagObject(Some("ab"))) == Ok(Some("Ab"))
  {
    assert LowerStr("ab") == "ab";
    assert Title("ab") == "Ab";
  }

  /** The same short name in a list is skipped. */
  lemma ShortListEntrySkipped()
    ensures BestTag(BlacklistV2, TagList([Some("ab")])) == Ok(None)
  {
  }

  /** The later blacklist rejects every name the earlier one does. */
  lemma BlacklistGrew(name: string)
    requires LowerStr(name) in BlacklistV1
    ensures LowerStr(name) in BlacklistV2
  {
  }

  /** Which script's tags differ: "00s" passes the earlier blacklist. */
  lemma DecadeTag()
    ensures BestTag(BlacklistV1, TagList([Some("00s")])) == Ok(Some("00S"))
    ensures BestTag(BlacklistV2, TagList([Some("00s")])) == Ok(None)
  {
    assert LowerStr("00s") == "00s";
    assert Title("00s") == "00S";
  }
}
