// The same NSP written to storage and sent over USB, where its header comes last.

module NspOverUsb {
  import opened Bytes
  import opened UsbProtocol
  import opened UsbHostSafety
  import opened UsbSession
  import opened UsbScripts
  import PfsImage
  import opened NspBuilder
  import opened NspResult

  function Pairs(names: seq<Path>, bodies: seq<seq<byte>>): (e: seq<(Path, seq<byte>)>)
    requires |names| == |bodies|
    ensures |e| == |names| && forall k :: 0 <= k < |e| ==> e[k] == (names[k], bodies[k])
  {
    seq(|names|, k requires 0 <= k < |names| => (names[k], bodies[k]))
  }

  lemma {:induction false} PairBytes(names: seq<Path>, bodies: seq<seq<byte>>)
    requires |names| == |bodies|
    ensures EntryBytes(Pairs(names, bodies)) == Concat(bodies)
    decreases |names|
  {
    if names != [] {
      PairBytes(names[1..], bodies[1..]);
      assert Pairs(names, bodies)[1..] == Pairs(names[1..], bodies[1..]);
    }
  }

  // Sent entry by entry under any names, and finished by the header, the NSP arrives at the host as
  // exactly the file that the storage path writes.
  lemma HostHoldsTheSameNsp(b: Builder, env: Env, files: map<Path, seq<byte>>, path: Path, names: seq<Path>)
    requires b.Finished() && XmlKeptSize(b) && ValidEnv(env) && GoodPath(path)
    requires |names| == |b.bodies| && b.nspSize < 0x1_0000_0000_0000_0000 && b.image.HeaderSize() < 0x1_0000_0000
    requires b.nspSize > b.image.HeaderSize() && env.accepts(0, path, b.nspSize)
    requires forall k :: 0 <= k < |names| ==> GoodPath(names[k]) && !LooksCancelled(b.bodies[k])
    ensures var header := PfsImage.HeaderBytes(b.image.entries, b.image.nameTable);
            var script := [OpenNsp(path, b.nspSize, |header|)] + EntriesScript(Pairs(names, b.bodies), header);
            && Conforming(env, View(None, files, 0), script)
            && Consistent(Host(false, 0, 0, 0, None, files, 0))
            && var o := Session(env, Host(false, 0, 0, 0, None, files, 0), PlanOf(env, View(None, files, 0), script).packets);
               path in o.h.disk && o.h.disk[path] == b.file
  {
    var header := PfsImage.HeaderBytes(b.image.entries, b.image.nameTable);
    FinishedFile(b);
    PfsImage.EntriesBytesSize(b.image.entries);
    PairBytes(names, b.bodies);
    assert b.file == header + EntryBytes(Pairs(names, b.bodies));
    NspIsComplete(env, files, path, header, Pairs(names, b.bodies));
  }
}
