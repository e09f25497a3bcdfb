/** The few UIKit and CoreGraphics value types the harness computes with. `CGFloat` is taken
    as a real number. */
module UIKit {

  datatype CGSize = CGSize(width: real, height: real)

  datatype CGRect = CGRect(x: real, y: real, width: real, height: real)

  /** The part of `UIUserInterfaceStyle` the harness assigns. */
  datatype UIUserInterfaceStyle = Light | Dark

  /** `CGSize / CGFloat`, componentwise (private operator at the end of `Snapshot.swift`). */
  function Divide(size: CGSize, d: real): (r: CGSize)
    requires d != 0.0
    ensures r.width * d == size.width && r.height * d == size.height
  {
    CGSize(size.width / d, size.height / d)
  }
}
