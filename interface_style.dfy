/** `InterfaceStyle` of `InterfaceStyle.swift`: its string `id`, the partial inverse
    `init?(id:)`, equality by id, the default and the UIKit style it forces. A widget rendering
    mode is known by the text its id carries after "widget" (the capitalised description of the
    WidgetKit mode). */
module InterfaceStyles {
  import opened Wrappers
  import UIKit

  datatype WidgetRenderingMode = WidgetRenderingMode(description: string)

  datatype InterfaceStyle = Light | Dark | Widget(mode: WidgetRenderingMode) {
    /** `id`: "light", "dark", or "widget" followed by the rendering mode's description. */
    function Id(): (r: string)
      ensures |r| >= 4
      ensures Light? <==> r == "light"
      ensures Dark? <==> r == "dark"
      ensures Widget? <==> |r| >= 6 && r[..6] == "widget"
      ensures Widget? ==> r[6..] == mode.description
    {
      match this
      case Light => "light"
      case Dark => "dark"
      case Widget(mode) => "widget" + mode.description
    }
  }

  /** `InterfaceStyle.default`. */
  const Default: InterfaceStyle := Light

  /** `init?(id:)`: only the ids of light and dark are recognised. */
  function FromId(id: string): (r: Option<InterfaceStyle>)
    ensures r.Some? <==> id == "light" || id == "dark"
    ensures r.Some? ==> r.value.Id() == id && !r.value.Widget?
  {
    if id == Light.Id() then Some(Light)
    else if id == Dark.Id() then Some(Dark)
    else None
  }

  /** `FromId` inverts `Id` on light and dark and rejects every widget id. */
  lemma FromIdInvertsId(s: InterfaceStyle)
    ensures s.Widget? <==> FromId(s.Id()).None?
    ensures !s.Widget? ==> FromId(s.Id()) == Some(s)
  {
    if s.Widget? {
      assert s.Id()[..6] == "widget";
      assert |s.Id()| >= 6;
    }
  }

  /** `==`: two styles are equal when their ids are. */
  predicate Equal(a: InterfaceStyle, b: InterfaceStyle) {
    a.Id() == b.Id()
  }

  /** Equality by id is structural equality: light and dark differ, no widget style equals
      either, and two widget styles are equal exactly when their modes are. */
  lemma EqualIsSameStyle(a: InterfaceStyle, b: InterfaceStyle)
    ensures Equal(a, b) <==> a == b
  {
    if a.Widget? && b.Widget? && Equal(a, b) {
      assert a.mode.description == a.Id()[6..] == b.Id()[6..] == b.mode.description;
    } else if a.Widget? && !b.Widget? {
      assert a.Id()[..4] == "widg";
    } else if b.Widget? && !a.Widget? {
      assert b.Id()[..4] == "widg";
    }
  }

  /** `overrideUserInterfaceStyle`: widget rendering is drawn dark. */
  function OverrideUserInterfaceStyle(s: InterfaceStyle): (r: UIKit.UIUserInterfaceStyle)
    ensures r == UIKit.Light <==> s == Light
  {
    match s
    case Light => UIKit.Light
    case Dark => UIKit.Dark
    case Widget(_) => UIKit.Dark
  }
}
