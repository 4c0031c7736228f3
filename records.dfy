/** The rule database as the detector sees it, the records it holds, and the
    fixed priority tables of the detector's configuration. */
module Records {
  import opened RubyValues

  /** A record's spec hash (hd_specs or hd_ops): field name to value. */
  type Specs = map<string, Val>

  /** Ruby's hash[key]: nil for a missing key. */
  function Lookup(m: Specs, k: string): Val
  {
    if k in m then m[k] else VNil
  }

  /** A device record: {'Device' => {'_id' => ..., 'hd_specs' => ...,
      'hd_ops' => ...}}. */
  datatype DeviceRecord = DeviceRecord(id: Val, specs: Specs, ops: Specs)

  /** An extra (platform, browser, app or language) record:
      {'Extra' => {'hd_specs' => ...}}, where hd_specs may be missing. */
  datatype ExtraRecord = ExtraRecord(specs: Option<Specs>)

  /** One filter of a sieve branch and its match strings with their nodes. */
  datatype Rule = Rule(filter: string, matches: seq<(string, Val)>)

  /** What the store holds under a key: a record, a sieve branch (orders of
      filters, each in stored order) or a table branch (exact keys). */
  datatype Entry =
    | DeviceEntry(device: DeviceRecord)
    | ExtraEntry(extra: ExtraRecord)
    | SieveEntry(orders: seq<seq<Rule>>)
    | TableEntry(table: map<string, Val>)

  /** An empty hash is blank; a record always holds its top-level key. */
  predicate EntryBlank(e: Entry)
  {
    (e.SieveEntry? && e.orders == []) || (e.TableEntry? && e.table == map[])
  }

  /** The rule database: an immutable map from keys to entries. */
  type Store = map<string, Entry>

  /** Store#read: the entry under key, None (Ruby's false) when it is absent
      or blank. */
  function Read(store: Store, key: string): (r: Option<Entry>)
    ensures r.Some? <==> key in store && !EntryBlank(store[key])
    ensures r.Some? ==> r.value == store[key] && !EntryBlank(r.value)
  {
    if key in store && !EntryBlank(store[key]) then Some(store[key]) else None
  }

  function DeviceKey(id: Val): string { "Device_" + ToS(id) }

  function ExtraKey(id: Val): string { "Extra_" + ToS(id) }

  /** Device#find_by_id. An entry of another shape under the key is read as
      absent. */
  function FindDevice(store: Store, id: Val): (r: Option<DeviceRecord>)
    ensures r.Some? <==> DeviceKey(id) in store && store[DeviceKey(id)].DeviceEntry?
    ensures r.Some? ==> r.value == store[DeviceKey(id)].device
  {
    match Read(store, DeviceKey(id))
    case Some(DeviceEntry(d)) => Some(d)
    case _ => None
  }

  /** Extra#find_by_id. */
  function FindExtra(store: Store, id: Val): (r: Option<ExtraRecord>)
    ensures r.Some? <==> ExtraKey(id) in store && store[ExtraKey(id)].ExtraEntry?
    ensures r.Some? ==> r.value == store[ExtraKey(id)].extra
  {
    match Read(store, ExtraKey(id))
    case Some(ExtraEntry(x)) => Some(x)
    case _ => None
  }

  // ------------------------------------------------- detection configuration

  const DETECTIONV4_STANDARD: string := "0"
  const DETECTIONV4_GENERIC: string := "1"

  /** The five *-ua-order lists: header names in the order they are tried.
      The detector extends the device, platform, browser and app lists in
      place with x- header names, so each object carries its own copy. */
  datatype UaOrders = UaOrders(device: seq<string>, platform: seq<string>, browser: seq<string>,
                               app: seq<string>, language: seq<string>)
  {
    predicate HasClass(cls: string) { cls in {"device", "platform", "browser", "app", "language"} }

    function For(cls: string): seq<string>
      requires HasClass(cls)
    {
      match cls
      case "device" => device
      case "platform" => platform
      case "browser" => browser
      case "app" => app
      case _ => language
    }

    function With(cls: string, order: seq<string>): (r: UaOrders)
      requires HasClass(cls)
      ensures r.For(cls) == order
      ensures forall c :: HasClass(c) && c != cls ==> r.For(c) == For(c)
    {
      match cls
      case "device" => this.(device := order)
      case "platform" => this.(platform := order)
      case "browser" => this.(browser := order)
      case "app" => this.(app := order)
      case _ => this.(language := order)
    }
  }

  const InitialUaOrders: UaOrders := UaOrders(
    ["x-operamini-phone-ua", "x-mobile-ua", "device-stock-ua", "user-agent", "agent"],
    ["x-operamini-phone-ua", "x-mobile-ua", "device-stock-ua", "user-agent", "agent"],
    ["user-agent", "agent", "device-stock-ua"],
    ["user-agent", "agent", "device-stock-ua"],
    ["user-agent", "agent", "device-stock-ua"])

  /** A *-bi-order table: platform name and its key tuples, in order. */
  type BiOrder = seq<(string, seq<seq<string>>)>

  const DeviceBiOrder: BiOrder := [
    ("android", [["ro.product.brand", "ro.product.model"],
                 ["ro.product.manufacturer", "ro.product.model"],
                 ["ro-product-brand", "ro-product-model"],
                 ["ro-product-manufacturer", "ro-product-model"]]),
    ("ios", [["utsname.brand", "utsname.machine"]]),
    ("windows phone", [["devicemanufacturer", "devicename"]])
  ]

  /** platform-bi-order as written: the iOS tuple names 'uidevice.systemName'
      with a capital N. */
  const PlatformBiOrderAsWritten: BiOrder := [
    ("android", [["ro.build.id", "ro.build.version.release"],
                 ["ro-build-id", "ro-build-version-release"]]),
    ("ios", [["uidevice.systemName", "uidevice.systemversion"]]),
    ("windows phone", [["osname", "osversion"]])
  ]

  /** platform-bi-order with the iOS key in lower case, as the detector's
      lower-cased build-info keys can match it. */
  const PlatformBiOrder: BiOrder := [
    ("android", [["ro.build.id", "ro.build.version.release"],
                 ["ro-build-id", "ro-build-version-release"]]),
    ("ios", [["uidevice.systemname", "uidevice.systemversion"]]),
    ("windows phone", [["osname", "osversion"]])
  ]

  /** The language table: code and full name, in table order. */
  const Languages: seq<(string, string)> := [
      ("af", "Afrikaans"), ("sq", "Albanian"), ("ar-dz", "Arabic (Algeria)"),
      ("ar-bh", "Arabic (Bahrain)"), ("ar-eg", "Arabic (Egypt)"), ("ar-iq", "Arabic (Iraq)"),
      ("ar-jo", "Arabic (Jordan)"), ("ar-kw", "Arabic (Kuwait)"), ("ar-lb", "Arabic (Lebanon)"),
      ("ar-ly", "Arabic (libya)"), ("ar-ma", "Arabic (Morocco)"), ("ar-om", "Arabic (Oman)"),
      ("ar-qa", "Arabic (Qatar)"), ("ar-sa", "Arabic (Saudi Arabia)"), ("ar-sy", "Arabic (Syria)"),
      ("ar-tn", "Arabic (Tunisia)"), ("ar-ae", "Arabic (U.A.E.)"), ("ar-ye", "Arabic (Yemen)"),
      ("ar", "Arabic"), ("hy", "Armenian"), ("as", "Assamese"),
      ("az", "Azeri"), ("eu", "Basque"), ("be", "Belarusian"),
      ("bn", "Bengali"), ("bg", "Bulgarian"), ("ca", "Catalan"),
      ("zh-cn", "Chinese (China)"), ("zh-hk", "Chinese (Hong Kong SAR)"), ("zh-mo", "Chinese (Macau SAR)"),
      ("zh-sg", "Chinese (Singapore)"), ("zh-tw", "Chinese (Taiwan)"), ("zh", "Chinese"),
      ("hr", "Croatian"), ("cs", "Czech"), ("da", "Danish"),
      ("da-dk", "Danish"), ("div", "Divehi"), ("nl-be", "Dutch (Belgium)"),
      ("nl", "Dutch (Netherlands)"), ("en-au", "English (Australia)"), ("en-bz", "English (Belize)"),
      ("en-ca", "English (Canada)"), ("en-ie", "English (Ireland)"), ("en-jm", "English (Jamaica)"),
      ("en-nz", "English (New Zealand)"), ("en-ph", "English (Philippines)"), ("en-za", "English (South Africa)"),
      ("en-tt", "English (Trinidad)"), ("en-gb", "English (United Kingdom)"), ("en-us", "English (United States)"),
      ("en-zw", "English (Zimbabwe)"), ("en", "English"), ("us", "English (United States)"),
      ("et", "Estonian"), ("fo", "Faeroese"), ("fa", "Farsi"),
      ("fi", "Finnish"), ("fr-be", "French (Belgium)"), ("fr-ca", "French (Canada)"),
      ("fr-lu", "French (Luxembourg)"), ("fr-mc", "French (Monaco)"), ("fr-ch", "French (Switzerland)"),
      ("fr", "French (France)"), ("mk", "FYRO Macedonian"), ("gd", "Gaelic"),
      ("ka", "Georgian"), ("de-at", "German (Austria)"), ("de-li", "German (Liechtenstein)"),
      ("de-lu", "German (Luxembourg)"), ("de-ch", "German (Switzerland)"), ("de-de", "German (Germany)"),
      ("de", "German (Germany)"), ("el", "Greek"), ("gu", "Gujarati"),
      ("he", "Hebrew"), ("hi", "Hindi"), ("hu", "Hungarian"),
      ("is", "Icelandic"), ("id", "Indonesian"), ("it-ch", "Italian (Switzerland)"),
      ("it", "Italian (Italy)"), ("it-it", "Italian (Italy)"), ("ja", "Japanese"),
      ("kn", "Kannada"), ("kk", "Kazakh"), ("kok", "Konkani"),
      ("ko", "Korean"), ("kz", "Kyrgyz"), ("lv", "Latvian"),
      ("lt", "Lithuanian"), ("ms", "Malay"), ("ml", "Malayalam"),
      ("mt", "Maltese"), ("mr", "Marathi"), ("mn", "Mongolian (Cyrillic)"),
      ("ne", "Nepali (India)"), ("nb-no", "Norwegian (Bokmal)"), ("nn-no", "Norwegian (Nynorsk)"),
      ("no", "Norwegian (Bokmal)"), ("or", "Oriya"), ("pl", "Polish"),
      ("pt-br", "Portuguese (Brazil)"), ("pt", "Portuguese (Portugal)"), ("pa", "Punjabi"),
      ("rm", "Rhaeto-Romanic"), ("ro-md", "Romanian (Moldova)"), ("ro", "Romanian"),
      ("ru-md", "Russian (Moldova)"), ("ru", "Russian"), ("sa", "Sanskrit"),
      ("sr", "Serbian"), ("sk", "Slovak"), ("ls", "Slovenian"),
      ("sb", "Sorbian"), ("es-ar", "Spanish (Argentina)"), ("es-bo", "Spanish (Bolivia)"),
      ("es-cl", "Spanish (Chile)"), ("es-co", "Spanish (Colombia)"), ("es-cr", "Spanish (Costa Rica)"),
      ("es-do", "Spanish (Dominican Republic)"), ("es-ec", "Spanish (Ecuador)"), ("es-sv", "Spanish (El Salvador)"),
      ("es-gt", "Spanish (Guatemala)"), ("es-hn", "Spanish (Honduras)"), ("es-mx", "Spanish (Mexico)"),
      ("es-ni", "Spanish (Nicaragua)"), ("es-pa", "Spanish (Panama)"), ("es-py", "Spanish (Paraguay)"),
      ("es-pe", "Spanish (Peru)"), ("es-pr", "Spanish (Puerto Rico)"), ("es-us", "Spanish (United States)"),
      ("es-uy", "Spanish (Uruguay)"), ("es-ve", "Spanish (Venezuela)"), ("es", "Spanish (Traditional Sort)"),
      ("es-es", "Spanish (Traditional Sort)"), ("sx", "Sutu"), ("sw", "Swahili"),
      ("sv-fi", "Swedish (Finland)"), ("sv", "Swedish"), ("syr", "Syriac"),
      ("ta", "Tamil"), ("tt", "Tatar"), ("te", "Telugu"),
      ("th", "Thai"), ("ts", "Tsonga"), ("tn", "Tswana"),
      ("tr", "Turkish"), ("uk", "Ukrainian"), ("ur", "Urdu"),
      ("uz", "Uzbek"), ("vi", "Vietnamese"), ("xh", "Xhosa"),
      ("yi", "Yiddish"), ("zu", "Zulu")
  ]

  function LanguageLookup(table: seq<(string, string)>, code: string): (r: Option<string>)
    ensures r.Some? ==> exists i :: 0 <= i < |table| && table[i] == (code, r.value)
    ensures r.None? ==> forall i :: 0 <= i < |table| ==> table[i].0 != code
  {
    if table == [] then None
    else if table[0].0 == code then Some(table[0].1)
    else LanguageLookup(table[1..], code)
  }
}
