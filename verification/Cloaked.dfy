/** Settings and packets together: what one device sends, the other, or the same one later, recognizes. */
module Cloaked {
  import opened Basics
  import opened Text
  import opened Uapi
  import opened Classify
  import Codec
  import Profile

  /** Under the settings reached by any run of set operations, all packets are delivered exactly if no headers clash. */
  lemma ReachableDelivered(ops: seq<Op>, stream: Stream)
    ensures Shaped(Run(ops)) && (AllDelivered(Run(ops), stream) <==> NoClash(Run(ops), stream))
  {
    RunSafe(ops);
    DeliveredIff(Run(ops), stream);
  }

  /** Equal paddings are enough. */
  lemma EqualPaddings(ops: seq<Op>, stream: Stream)
    requires forall i :: 0 <= i < 4 ==> Run(ops).paddings[i] == Run(ops).paddings[0]
    ensures Shaped(Run(ops)) && AllDelivered(Run(ops), stream)
  {
    ReachableDelivered(ops, stream);
    RunSafe(ops);
    hide Run, AllDelivered, NoClash;
    EqualPaddingsClear(Run(ops));
    ClearNoClash(Run(ops), stream);
  }

  /**
   When the first device accepts a profile, the second one is set as the first exactly if the profile is harmless; what
   either sends then, the other receives, exactly if no headers clash.
   */
  lemma AcrossDevices(p: Profile.Profile, endpoint: Codec.AddrPort, others: Others, peersOk: bool, othersY: Others, stream: Stream)
    requires Profile.CoreTyped(p.core) && Codec.AddrPortTyped(endpoint)
    requires IpcSet(FRESH, Render(Profile.ProfileLines(p)), others, peersOk).ok
    ensures var x := IpcSet(FRESH, Render(Profile.ProfileLines(p)), others, peersOk).config;
            && (Profile.SecondDevice(p, endpoint, othersY) == Some(Merged(x, true)) <==> Profile.Harmless(p))
            && Shaped(x) && (AllDelivered(x, stream) <==> NoClash(x, stream))
  {
    Profile.Transfer(p, endpoint, others, peersOk, othersY);
    var op := Op(Render(Profile.ProfileLines(p)), others, peersOk);
    var x := IpcSet(FRESH, op.text, others, peersOk).config;
    assert Run([op]) == x by {
      assert [op][..0] == [];
      assert Run([]) == FRESH;
    }
    ReachableDelivered([op], stream);
  }
}
