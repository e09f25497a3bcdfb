/** `SnapshotImageType` of `SnapshotImageType.swift`: the file format of a stored snapshot
    and its path extension. */
module ImageTypes {

  datatype SnapshotImageType = Png | Jpeg(quality: real)

  /** `pathExtension`. */
  function PathExtension(t: SnapshotImageType): (ext: string)
    ensures t.Png? ==> ext == "png"
    ensures t.Jpeg? ==> ext == "jpeg"
  {
    match t
    case Png => "png"
    case Jpeg(_) => "jpeg"
  }

  /** `SnapshotImageType.default`. */
  const Default: SnapshotImageType := Png

  /** The extension tells the format apart, whatever the JPEG quality, so a PNG and a JPEG
      file of the same snapshot never share a path. */
  lemma ExtensionIdentifiesFormat(a: SnapshotImageType, b: SnapshotImageType, base: string)
    ensures PathExtension(a) == PathExtension(b) <==> a.Png? == b.Png?
    ensures base + "." + PathExtension(a) == base + "." + PathExtension(b) <==> a.Png? == b.Png?
  {
    if base + "." + PathExtension(a) == base + "." + PathExtension(b) {
      assert PathExtension(a) == (base + "." + PathExtension(a))[|base| + 1..];
      assert PathExtension(b) == (base + "." + PathExtension(b))[|base| + 1..];
    }
  }
}
