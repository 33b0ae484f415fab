/** The `settings` table (`key TEXT PRIMARY KEY, value TEXT`) as a map, the
    `getSetting` / `setSetting` helpers, the admin's `POST /settings`, and the
    per-request values every page reads from it. */
module SettingsStore {
  import opened Common
  import opened Numbers

  /** One value per key: the primary key makes the table a map. */
  type Settings = map<string, string>

  const BrandKey := "brand_name"
  const VatRateKey := "vat_rate"
  const VatVisibleKey := "vat_visible"
  const VatNumberKey := "vat_number"

  /** The four keys are different texts. */
  lemma KeysDistinct()
    ensures BrandKey != VatRateKey && BrandKey != VatVisibleKey && BrandKey != VatNumberKey
    ensures VatRateKey != VatVisibleKey && VatRateKey != VatNumberKey && VatVisibleKey != VatNumberKey
  {
    assert BrandKey[0] != VatNumberKey[0];
    assert VatRateKey[4] != VatVisibleKey[4];
    assert VatRateKey[4] != VatNumberKey[4];
    assert VatVisibleKey[4] != VatNumberKey[4];
  }

  /** The agency's name, the default brand and the fixed first party of
      every contract. */
  const Agency := "سونا للتوظيف - العين"

  /** `getSetting(key, def)`: the stored value, or the caller's default. */
  function GetSetting(s: Settings, key: string, def: string): (r: string)
    ensures key in s ==> r == s[key]
    ensures key !in s ==> r == def
  {
    if key in s then s[key] else def
  }

  /** `setSetting(key, val)`: an UPDATE when the key exists, an INSERT
      otherwise; in the map both are the same write of `String(val ?? '')`. */
  function SetSetting(s: Settings, key: string, val: Option<string>): (r: Settings)
    ensures r.Keys == s.Keys + {key}
    ensures r[key] == StringOrEmpty(val)
    ensures forall k :: k in s && k != key ==> r[k] == s[k]
  {
    s[key := StringOrEmpty(val)]
  }

  /** The body of `POST /settings`. */
  datatype SettingsForm = SettingsForm(
    brandName: Option<string>,
    vatRate: Option<string>,
    vatVisible: Option<string>,
    vatNumber: Option<string>)

  /** `POST /settings`: the four keys are written in order; the visibility
      flag becomes '1' or '0' and a blank VAT number becomes ''. */
  function SaveSettings(s: Settings, f: SettingsForm): (r: Settings)
    ensures r.Keys == s.Keys + {BrandKey, VatRateKey, VatVisibleKey, VatNumberKey}
    ensures r[BrandKey] == StringOrEmpty(f.brandName)
    ensures r[VatRateKey] == StringOrEmpty(f.vatRate)
    ensures r[VatVisibleKey] == (if Truthy(f.vatVisible) then "1" else "0")
    ensures r[VatNumberKey] == OrEmpty(f.vatNumber)
    ensures forall k :: k in s && k !in {BrandKey, VatRateKey, VatVisibleKey, VatNumberKey} ==> r[k] == s[k]
  {
    var s1 := SetSetting(s, BrandKey, f.brandName);
    var s2 := SetSetting(s1, VatRateKey, f.vatRate);
    var s3 := SetSetting(s2, VatVisibleKey, Some(if Truthy(f.vatVisible) then "1" else "0"));
    SetSetting(s3, VatNumberKey, Some(OrEmpty(f.vatNumber)))
  }

  /** What the per-request middleware exposes to every page and handler. */
  datatype Locals = Locals(brandName: string, vatVisible: bool, vatNumber: string, vatRate: Option<real>)

  /** The middleware's reads, with its defaults: the agency name, '1', ''
      and '5'; the VAT rate goes through `Number`. */
  function RequestLocals(s: Settings): (l: Locals)
    ensures BrandKey in s ==> l.brandName == s[BrandKey]
    ensures BrandKey !in s ==> l.brandName == Agency
    ensures l.vatVisible <==> (VatVisibleKey !in s || s[VatVisibleKey] == "1")
    ensures VatRateKey in s ==> l.vatRate == JsNumber(s[VatRateKey])
    ensures VatRateKey !in s ==> l.vatRate == Some(5.0)
    ensures VatNumberKey in s ==> l.vatNumber == s[VatNumberKey]
    ensures VatNumberKey !in s ==> l.vatNumber == ""
  {
    var rate := GetSetting(s, VatRateKey, "5");
    ParseNatText(5);
    Locals(
      GetSetting(s, BrandKey, Agency),
      GetSetting(s, VatVisibleKey, "1") == "1",
      GetSetting(s, VatNumberKey, ""),
      JsNumber(rate))
  }

  /** The values `GET /settings` shows in its form; unlike the middleware,
      its VAT number default is '1000000000'. */
  function SettingsPage(s: Settings): (f: SettingsForm)
    ensures f.brandName.Some? && f.vatRate.Some? && f.vatVisible.Some? && f.vatNumber.Some?
    ensures f.brandName.value == if BrandKey in s then s[BrandKey] else Agency
    ensures f.vatRate.value == if VatRateKey in s then s[VatRateKey] else "5"
    ensures f.vatVisible.value == if VatVisibleKey in s then s[VatVisibleKey] else "1"
    ensures f.vatNumber.value == if VatNumberKey in s then s[VatNumberKey] else "1000000000"
  {
    SettingsForm(
      Some(GetSetting(s, BrandKey, Agency)),
      Some(GetSetting(s, VatRateKey, "5")),
      Some(GetSetting(s, VatVisibleKey, "1")),
      Some(GetSetting(s, VatNumberKey, "1000000000")))
  }

  // ---------------------------------------------------------------------
  // Lemmas

  /** Reading a key back after writing it returns the written text whatever
      the default, and every other key reads as before. */
  lemma GetAfterSet(s: Settings, key: string, val: Option<string>, def: string, other: string)
    ensures GetSetting(SetSetting(s, key, val), key, def) == StringOrEmpty(val)
    ensures other != key ==> GetSetting(SetSetting(s, key, val), other, def) == GetSetting(s, other, def)
  {
  }

  /** Setting a key to what it already holds changes nothing. */
  lemma SetIsIdempotent(s: Settings, key: string, val: Option<string>)
    ensures SetSetting(SetSetting(s, key, val), key, val) == SetSetting(s, key, val)
  {
  }

  /** What an admin saves is what the next request sees: the brand and VAT
      number as entered, visibility on exactly for a non-empty flag, and the
      rate as `Number` reads the entered text. */
  lemma SavedSettingsReachEveryPage(s: Settings, f: SettingsForm)
    ensures var l := RequestLocals(SaveSettings(s, f));
            && l.brandName == StringOrEmpty(f.brandName)
            && (l.vatVisible <==> Truthy(f.vatVisible))
            && l.vatNumber == OrEmpty(f.vatNumber)
            && l.vatRate == JsNumber(StringOrEmpty(f.vatRate))
  {
  }

  /** The settings page shows back exactly what was saved. */
  lemma SettingsPageShowsSaved(s: Settings, f: SettingsForm)
    ensures SettingsPage(SaveSettings(s, f))
            == SettingsForm(Some(StringOrEmpty(f.brandName)), Some(StringOrEmpty(f.vatRate)),
                            Some(if Truthy(f.vatVisible) then "1" else "0"), Some(OrEmpty(f.vatNumber)))
  {
  }
}
