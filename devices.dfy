/** `Device` of `Device.swift`: a named logical screen size, stored as the physical size
    divided by the resolution, and the catalog of three iPhones. */
module Devices {
  import UIKit

  datatype Device = Device(name: string, width: real, height: real) {
    /** `id`. */
    function Id(): string { name }
  }

  /** Default of the `resolution:` argument of `init`. */
  const DefaultResolution: real := 1.0

  /** `init(name:width:height:resolution:)`. */
  function NewDevice(name: string, width: real, height: real, resolution: real): (d: Device)
    requires resolution != 0.0
    ensures d.Id() == name
    ensures d.width * resolution == width && d.height * resolution == height
  {
    var logical := UIKit.Divide(UIKit.CGSize(width, height), resolution);
    Device(name, logical.width, logical.height)
  }

  /** At the default resolution the given size is stored unchanged. */
  lemma DefaultResolutionKeepsSize(name: string, width: real, height: real)
    ensures NewDevice(name, width, height, DefaultResolution) == Device(name, width, height)
  {
  }

  function D4dot7(): Device { NewDevice("4.7", 750.0, 1334.0, 2.0) }
  function D6dot1(): Device { NewDevice("6.1", 1179.0, 2556.0, 3.0) }
  function D6dot7(): Device { NewDevice("6.7", 1290.0, 2796.0, 3.0) }

  /** `Device.default`. */
  function Default(): (d: Device)
    ensures d.Id() == "6.1"
  {
    D6dot1()
  }

  /** Every catalog division is exact, and the catalog ids are pairwise distinct. */
  lemma Catalog()
    ensures D4dot7() == Device("4.7", 375.0, 667.0)
    ensures D6dot1() == Device("6.1", 393.0, 852.0)
    ensures D6dot7() == Device("6.7", 430.0, 932.0)
    ensures D4dot7().Id() != D6dot1().Id() && D4dot7().Id() != D6dot7().Id() && D6dot1().Id() != D6dot7().Id()
  {
  }
}
