/**
 * The rule set: device family -> browser family -> operator -> version,
 * where a device or a browser may instead map to the wildcard '*'.
 */
module Rules {
  import opened Optional

  /** What a browser family maps to: '*' (every version) or operator => version. */
  datatype BrowserRule = AllVersions | Versions(ops: map<string, string>)

  /** What a device family maps to: '*' (every browser) or browser => rule. */
  datatype DeviceRule = AllBrowsers | Browsers(browsers: map<string, BrowserRule>)

  type RuleSet = map<string, DeviceRule>

  /** The parsed user agent: device family, browser family and browser version. */
  datatype Client = Client(device: string, browser: string, version: string)

  /** haveRulesForDevice: the device family is a key of the rules. */
  predicate HaveRulesForDevice(rules: RuleSet, device: string) {
    device in rules
  }

  /**
   * haveVersionsForBrowser: the device maps to browsers and the browser is one
   * of them. A device mapped to '*' has no browser keys.
   */
  predicate HaveVersionsForBrowser(rules: RuleSet, device: string, browser: string) {
    device in rules && rules[device].Browsers? && browser in rules[device].browsers
  }

  /** getBlockedBrowsers: rules[device], or null when the device has no rule. */
  function GetBlockedBrowsers(rules: RuleSet, device: string): (r: Option<DeviceRule>)
    ensures r.Some? <==> HaveRulesForDevice(rules, device)
    ensures r.Some? ==> r.value == rules[device]
  {
    if HaveRulesForDevice(rules, device) then Some(rules[device]) else None
  }

  /** getBlockedBrowserVersions: rules[device][browser], or null when either key is missing. */
  function GetBlockedBrowserVersions(rules: RuleSet, device: string, browser: string): (r: Option<BrowserRule>)
    ensures r.Some? <==> HaveVersionsForBrowser(rules, device, browser)
    ensures r.Some? ==> r.value == rules[device].browsers[browser]
  {
    if HaveVersionsForBrowser(rules, device, browser) then Some(rules[device].browsers[browser]) else None
  }

  /** The browser map of a device, [] when the device is absent (PHP auto-vivification). */
  function BrowsersOf(rules: RuleSet, device: string): map<string, BrowserRule>
    requires device in rules ==> rules[device].Browsers?
  {
    if device in rules then rules[device].browsers else map[]
  }
}
