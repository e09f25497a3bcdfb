/** `SnapshotConfig` of `SnapshotConfig.swift`: a configuration pairs a device with an interface
    style and is keyed by its `id`; a `SnapshotConfig` is an ordered list of configurations grown
    by a non-mutating builder. */
module SnapshotConfigs {
  import opened Strings
  import UIKit
  import Devices
  import InterfaceStyles

  datatype Config = Config(device: Devices.Device, interfaceStyle: InterfaceStyles.InterfaceStyle) {
    /** `id`: the device id and the style id joined by "_". */
    function Id(): (r: string)
      ensures r == device.Id() + "_" + interfaceStyle.Id()
    {
      var pieces := [device.Id(), interfaceStyle.Id()];
      assert pieces[1..] == [interfaceStyle.Id()];
      assert Join(pieces[1..], '_') == interfaceStyle.Id();
      Join(pieces, '_')
    }

    /** `size`: the device's logical size. */
    function Size(): (r: UIKit.CGSize)
      ensures r.width == device.width && r.height == device.height
    {
      UIKit.CGSize(device.width, device.height)
    }
  }

  /** `Config.init(device:interfaceStyle:)`, whose style defaults to light. */
  function NewConfig(device: Devices.Device, interfaceStyle: InterfaceStyles.InterfaceStyle := InterfaceStyles.Default)
    : (c: Config)
    ensures c.device == device && c.interfaceStyle == interfaceStyle
  {
    Config(device, interfaceStyle)
  }

  /** The style of a configuration made without one is light. */
  lemma NewConfigDefaultsToLight(device: Devices.Device)
    ensures NewConfig(device).interfaceStyle == InterfaceStyles.Light
  {
  }

  /** The id tells configurations apart as far as their device names and styles go, provided
      no device name contains the separator. */
  lemma IdDistinguishesConfigs(c1: Config, c2: Config)
    requires '_' !in c1.device.name && '_' !in c2.device.name
    ensures c1.Id() == c2.Id() <==>
      c1.device.name == c2.device.name && InterfaceStyles.Equal(c1.interfaceStyle, c2.interfaceStyle)
  {
    if c1.Id() == c2.Id() {
      FirstSeparatorSplits(c1.device.Id(), c1.interfaceStyle.Id(), c2.device.Id(), c2.interfaceStyle.Id(), '_');
    }
  }

  datatype SnapshotConfig = SnapshotConfig(configs: seq<Config>) {
    /** `config(_:)`: a new value with `c` appended; the receiver is a value and stays as it is. */
    function WithConfig(c: Config): (r: SnapshotConfig)
      ensures r.Count() == Count() + 1
      ensures r.configs[..Count()] == configs && r.configs[Count()] == c
    {
      SnapshotConfig(configs + [c])
    }

    /** `count`. */
    function Count(): nat { |configs| }
  }

  /** `SnapshotConfig.init()` with no argument. */
  const Empty: SnapshotConfig := SnapshotConfig([])

  /** A chain of `config(_:)` calls on the empty value. */
  function Build(cs: seq<Config>): SnapshotConfig
    decreases |cs|
  {
    if cs == [] then Empty else Build(cs[..|cs| - 1]).WithConfig(cs[|cs| - 1])
  }

  /** A chain of `config(_:)` calls collects exactly its arguments, in call order. */
  lemma {:induction false} BuildCollectsInOrder(cs: seq<Config>)
    decreases |cs|
    ensures Build(cs).configs == cs && Build(cs).Count() == |cs|
  {
    if cs != [] {
      BuildCollectsInOrder(cs[..|cs| - 1]);
      assert cs[..|cs| - 1] + [cs[|cs| - 1]] == cs;
    }
  }
}
