/**
 * TRON configuration helpers: the master-wallet address check, and the integer/string part
 * of `convertFromSun`, which turns an on-chain USDT value (6 decimals) into a decimal string.
 */
module TronConfig {
  import opened Wrappers
  import opened ScaledDecimal

  /** USDT_DECIMALS: the token's on-chain precision. */
  const USDT_DECIMALS: nat := 6
  /** 10^USDT_DECIMALS on-chain units make one token. */
  const SUN_PER_TOKEN: nat := 1000000
  /** The master wallet used when none is configured. */
  const DEFAULT_MASTER_WALLET: string := "THVyqrSDMBvpibitvTt4xJFWxVgY61acLu"

  /** `isValidTronAddress`: a non-empty string of 34 characters that starts with 'T'. */
  function IsValidTronAddress(address: string): (r: bool)
    ensures r <==> |address| == 34 && address[0] == 'T'
    ensures r ==> address != []
  {
    if address == [] || |address| != 34 then false
    else if address[0] != 'T' then false
    else true
  }

  /**
   * `getMasterWalletAddress`: the configured address, or the default when none (or an empty
   * one) is configured; None stands for the exception thrown on an invalid address.
   */
  function MasterWalletAddress(configured: Option<string>): (r: Option<string>)
    ensures r.Some? ==> IsValidTronAddress(r.value)
    ensures r.Some? ==> r.value == DEFAULT_MASTER_WALLET || configured == Some(r.value)
    ensures configured.None? || configured == Some("") ==> r == Some(DEFAULT_MASTER_WALLET)
    ensures configured.Some? && configured.value != "" && IsValidTronAddress(configured.value) ==>
      r == configured
    ensures configured.Some? && configured.value != "" && !IsValidTronAddress(configured.value) ==>
      r.None?
  {
    assert |DEFAULT_MASTER_WALLET| == 34;
    var address := if configured.Some? && configured.value != [] then configured.value else DEFAULT_MASTER_WALLET;
    if IsValidTronAddress(address) then Some(address) else None
  }

  /** With nothing configured the default master wallet is used, and it passes the check. */
  lemma DefaultMasterWalletIsValid()
    ensures MasterWalletAddress(None) == Some(DEFAULT_MASTER_WALLET)
  {
    assert |DEFAULT_MASTER_WALLET| == 34;
  }

  /** The string `convertFromSun` builds: `${whole}.${fraction padded to 6 digits}`. */
  function SunString(value: nat): string {
    NatToString(value / SUN_PER_TOKEN) + "." + PadStart(NatToString(value % SUN_PER_TOKEN), USDT_DECIMALS)
  }

  /**
   * `convertFromSun` as a scaled amount: the decimal string it builds, read at 10^-8.
   * The result is exactly the on-chain value times 100.
   */
  function ConvertFromSun(value: nat): (r: int)
    ensures r == value * 100
  {
    ParseSunString(value);
    Parse(SunString(value)).value
  }

  /** The decimal string denotes value / 10^6 exactly; its scaled parse is value * 100. */
  lemma ParseSunString(value: nat)
    ensures Parse(SunString(value)) == Some(value * 100)
  {
    var ip := NatToString(value / SUN_PER_TOKEN);
    var fr := PadStart(NatToString(value % SUN_PER_TOKEN), USDT_DECIMALS);
    SunPieces(value);
    ParseUnsigned(ip + "." + fr);
    SplitAtDot(ip, fr);
    SunParts(value, ip, fr);
  }

  lemma SunPieces(value: nat)
    ensures AllDigits(NatToString(value / SUN_PER_TOKEN))
    ensures AllDigits(PadStart(NatToString(value % SUN_PER_TOKEN), USDT_DECIMALS))
    ensures |PadStart(NatToString(value % SUN_PER_TOKEN), USDT_DECIMALS)| == USDT_DECIMALS
    ensures DigitsValue(NatToString(value / SUN_PER_TOKEN)) == value / SUN_PER_TOKEN
    ensures DigitsValue(PadStart(NatToString(value % SUN_PER_TOKEN), USDT_DECIMALS)) == value % SUN_PER_TOKEN
  {
    NatToStringLength(value % SUN_PER_TOKEN, USDT_DECIMALS);
    PadStartValue(NatToString(value % SUN_PER_TOKEN), USDT_DECIMALS);
    NatToStringValue(value / SUN_PER_TOKEN);
    NatToStringValue(value % SUN_PER_TOKEN);
  }

  lemma SunParts(value: nat, ip: string, fr: string)
    requires AllDigits(ip) && AllDigits(fr) && |fr| == USDT_DECIMALS
    requires DigitsValue(ip) == value / SUN_PER_TOKEN && DigitsValue(fr) == value % SUN_PER_TOKEN
    ensures ParseParts(ip, fr) == Some(value * 100)
  {
    ExactParts(ip, fr);
    assert Pow10(KEPT_DIGITS - |fr|) == 100;
  }
}
