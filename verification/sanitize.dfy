/** `limpiar_datos` in its two variants: each outgoing record gets a
    `drive_token` and loses the attributes that would reveal where the audio
    file lives. Records are copied, never changed in place; here that is
    simply the fact that the functions return new maps. */
module Sanitize {
  import opened Wrappers
  import opened Values
  import Token

  /** `item.get(key)` */
  function Get(item: Item, key: string): (r: Option<Value>)
    ensures r.Some? <==> key in item
    ensures r.Some? ==> r.value == item[key]
  {
    if key in item then Some(item[key]) else None
  }

  /** Attributes the metadata endpoint strips from every record. */
  const HiddenMeta: set<string> := {"drive_file_id", "web_view_link", "search_keywords"}

  /** Attributes the general endpoint strips from every record. */
  const HiddenGeneral: set<string> := {"drive_file_id", "web_view_link"}

  /** The metadata endpoint's cleaner: a token only when `drive_file_id` is
      truthy; the file id, the link and the keywords are removed; every other
      attribute, a `drive_token` already present included, passes unchanged. */
  function CleanMeta(item: Item, now: nat): (r: Item)
    ensures "drive_file_id" !in r && "web_view_link" !in r && "search_keywords" !in r
    ensures "drive_token" in r <==> TruthyAt(item, "drive_file_id") || "drive_token" in item
    ensures TruthyAt(item, "drive_file_id") ==> r["drive_token"] == VStr(Token.Obfuscate(Get(item, "drive_file_id"), now))
    ensures forall k :: k in r ==> k in item || k == "drive_token"
    ensures forall k :: k in item && k !in HiddenMeta && (k != "drive_token" || !TruthyAt(item, "drive_file_id")) ==> k in r && r[k] == item[k]
  {
    var tokened := if TruthyAt(item, "drive_file_id")
                   then item["drive_token" := VStr(Token.Obfuscate(Get(item, "drive_file_id"), now))]
                   else item;
    tokened - HiddenMeta
  }

  /** The general endpoint's cleaner: `drive_token` is always set, to the empty
      string when `drive_file_id` is missing or falsy; only the file id and
      the link are removed, so `search_keywords` passes through. */
  function CleanGeneral(item: Item, now: nat): (r: Item)
    ensures "drive_file_id" !in r && "web_view_link" !in r && "drive_token" in r
    ensures r["drive_token"] == VStr(Token.Obfuscate(Get(item, "drive_file_id"), now))
    ensures r["drive_token"] == VStr("") <==> !TruthyAt(item, "drive_file_id")
    ensures r.Keys == item.Keys - HiddenGeneral + {"drive_token"}
    ensures forall k :: k in item && k !in HiddenGeneral && k != "drive_token" ==> r[k] == item[k]
  {
    item["drive_token" := VStr(Token.Obfuscate(Get(item, "drive_file_id"), now))] - HiddenGeneral
  }

  /** `limpiar_datos(items)` of the metadata endpoint: same length, same order. */
  function CleanAllMeta(items: seq<Item>, now: nat): (r: seq<Item>)
    ensures |r| == |items|
    ensures forall i :: 0 <= i < |items| ==> r[i] == CleanMeta(items[i], now)
  {
    seq(|items|, i requires 0 <= i < |items| => CleanMeta(items[i], now))
  }

  /** `limpiar_datos(items)` of the general endpoint: same length, same order. */
  function CleanAllGeneral(items: seq<Item>, now: nat): (r: seq<Item>)
    ensures |r| == |items|
    ensures forall i :: 0 <= i < |items| ==> r[i] == CleanGeneral(items[i], now)
  {
    seq(|items|, i requires 0 <= i < |items| => CleanGeneral(items[i], now))
  }

  /** The token a cleaned record carries in place of its file id hands the id
      back to whoever knows the key, until fifteen minutes after `now`. */
  lemma CleanMetaTokenResolves(item: Item, now: nat, at: int)
    requires TruthyAt(item, "drive_file_id")
    ensures CleanMeta(item, now)["drive_token"].VStr?
    ensures Token.Resolve(CleanMeta(item, now)["drive_token"].s, at)
            == if at <= now + Token.Ttl then Some(Render(item["drive_file_id"])) else None
  {
    Token.ObfuscateResolves(Get(item, "drive_file_id"), now, at);
  }

  lemma CleanGeneralTokenResolves(item: Item, now: nat, at: int)
    requires TruthyAt(item, "drive_file_id")
    ensures Token.Resolve(CleanGeneral(item, now)["drive_token"].s, at)
            == if at <= now + Token.Ttl then Some(Render(item["drive_file_id"])) else None
  {
    Token.ObfuscateResolves(Get(item, "drive_file_id"), now, at);
  }

  /** Cleaning a record whose attributes the metadata endpoint leaves alone
      changes nothing. */
  lemma CleanMetaIdentity(item: Item, now: nat)
    requires item.Keys !! HiddenMeta
    ensures CleanMeta(item, now) == item
  {
    assert !TruthyAt(item, "drive_file_id");
  }
}
