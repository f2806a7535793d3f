/**
 * The configuration record kept under 'appConfig': the delivery fee the settings page shows
 * and updates. `parseFloat` is modelled by its outcome: `None` for NaN, else the fee in cents.
 */
module Config {
  import opened Wrappers
  import opened Records
  import opened Storage

  const DeliveryFeeField: string := "deliveryFee"

  /** The 10.00 shown when no usable fee is stored. */
  const DefaultDeliveryFee: Cents := 1000

  /** `loadConfig`: `config.deliveryFee || 10.00`, so an absent or zero fee shows the default. */
  function ShownDeliveryFee(entries: map<string, Value>): (fee: Cents)
    requires WellTyped(entries)
    ensures fee != 0
    ensures DeliveryFeeField in ConfigOf(entries) && ConfigOf(entries)[DeliveryFeeField] != 0
            ==> fee == ConfigOf(entries)[DeliveryFeeField]
    ensures DeliveryFeeField !in ConfigOf(entries) || ConfigOf(entries)[DeliveryFeeField] == 0
            ==> fee == DefaultDeliveryFee
  {
    var config := ConfigOf(entries);
    if DeliveryFeeField in config && config[DeliveryFeeField] != 0 then config[DeliveryFeeField]
    else DefaultDeliveryFee
  }

  /** `parseFloat(input) || 0`: NaN becomes zero. */
  function EnteredFee(parsed: Option<Cents>): (fee: Cents)
    ensures fee == 0 <==> parsed.None? || parsed.value == 0
    ensures fee != 0 ==> parsed == Some(fee)
  {
    parsed.GetOr(0)
  }

  /** The configuration with its fee replaced and every other field kept. */
  function WithDeliveryFee(config: AppConfig, fee: Cents): (r: AppConfig)
    ensures r.Keys == config.Keys + {DeliveryFeeField}
    ensures r[DeliveryFeeField] == fee
    ensures forall k :: k in config && k != DeliveryFeeField ==> r[k] == config[k]
  {
    config[DeliveryFeeField := fee]
  }

  /** The store after `updateDeliveryPrice`: only 'appConfig' changes, and in it only the fee. */
  function AfterUpdateDeliveryPrice(entries: map<string, Value>, parsed: Option<Cents>): (r: map<string, Value>)
    requires WellTyped(entries)
    ensures WellTyped(r)
    ensures r - {AppConfigKey} == entries - {AppConfigKey}
    ensures ConfigOf(r) == WithDeliveryFee(ConfigOf(entries), EnteredFee(parsed))
  {
    entries[AppConfigKey := ConfigRecord(WithDeliveryFee(ConfigOf(entries), EnteredFee(parsed)))]
  }

  /**
   * Saving a non-zero fee and reloading the page shows that fee; saving zero, or input that
   * does not parse, shows the 10.00 default instead.
   */
  lemma DeliveryFeeRoundTrip(entries: map<string, Value>, parsed: Option<Cents>)
    requires WellTyped(entries)
    ensures EnteredFee(parsed) != 0 ==>
      ShownDeliveryFee(AfterUpdateDeliveryPrice(entries, parsed)) == parsed.value
    ensures EnteredFee(parsed) == 0 ==>
      ShownDeliveryFee(AfterUpdateDeliveryPrice(entries, parsed)) == DefaultDeliveryFee
  {
  }

  /** `updateDeliveryPrice`, with the parsed contents of the input field passed in. */
  method UpdateDeliveryPrice(store: Store, parsed: Option<Cents>)
    requires store.Valid()
    modifies store
    ensures store.Valid()
    ensures store.entries == AfterUpdateDeliveryPrice(old(store.entries), parsed)
  {
    var newPrice := if parsed.Some? && parsed.value != 0 then parsed.value else 0;
    var config := ConfigOf(store.entries);
    config := config[DeliveryFeeField := newPrice];
    store.Set(AppConfigKey, ConfigRecord(config));
  }
}
