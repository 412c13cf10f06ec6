// mirror.go: the signed manifest and the check every received manifest goes through.
module Manifests {
  import opened Common

  datatype FileEntry = FileEntry(path: string, size: int, chunkSize: int, chunkHashes: seq<string>)

  datatype Manifest = Manifest(kind: string, ts: int, files: seq<FileEntry>, sig: string)

  // JSON parsing and Ed25519 stay abstract: any parser, any signature predicate.
  datatype Verifier = Verifier(parse: Bytes -> Option<Manifest>, hasKey: bool, signed: Manifest -> bool)

  function Verify(v: Verifier, raw: Bytes): (r: Option<Manifest>) {
    match v.parse(raw)
    case None => None
    case Some(m) =>
      if m.kind != "content" then None
      else if v.hasKey && !v.signed(m) then None
      else Some(m)
  }
}
