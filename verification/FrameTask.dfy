/** `HandleFrameTask`: the frames of one task, handled one after the other. */
module FrameTasks {
  import opened Network
  import opened Reassembly
  import opened StoreRuns
  import opened FragmentStores
  import opened FrameHandling
  import opened Verdicts

  lemma FlushFrees(cfg: Config, b: Books, p: Packet)
    ensures Handle(cfg, b, p, true) == b.(freed := b.freed + [p])
  {
  }

  class FrameHandler {
    const cfg: Config
    const fragmentStore: FragmentStore
    var freed: seq<Packet>   // input containers freed by this handler
    var handed: seq<Packet>  // input containers handed to a MEP
    var arp: seq<Packet>     // input containers answered as ARP requests

    ghost predicate Valid()
      reads this, fragmentStore, fragmentStore.fragmentsById
    {
      fragmentStore.Valid()
    }

    ghost function Account(): Books
      reads this, fragmentStore, fragmentStore.fragmentsById
    {
      Books(fragmentStore.Contents(), freed, fragmentStore.released, handed, arp)
    }

    constructor (cfg: Config, fragmentStore: FragmentStore)
      requires fragmentStore.Valid()
      ensures this.cfg == cfg && this.fragmentStore == fragmentStore && Valid()
      ensures freed == handed == arp == []
    {
      this.cfg, this.fragmentStore := cfg, fragmentStore;
      freed, handed, arp := [], [], [];
    }

    method ProcessFrame(container: Packet) returns (verdict: Verdict)
      requires Valid()
      modifies this, fragmentStore, fragmentStore.fragmentsById
      ensures Valid() && fragmentStore.fragmentsById == old(fragmentStore.fragmentsById)
      ensures Judged(cfg, old(fragmentStore.Contents()), container, verdict)
      ensures Account() == Handle(cfg, old(Account()), container, false)
      ensures freed == AddIf(old(freed), container, FreesInput(container, verdict))
      ensures handed == AddIf(old(handed), container, HandsOnInput(container, verdict))
      ensures arp == AddIf(old(arp), container, verdict == Arp)
    {
      hide Route, IsFragment, Key, EtherType, Protocol, DstIP, TotLen, UdpLen, Next, ReleasedBy, Allowed, AddIf,
        FreesInput, HandsOnInput;
      ghost var before := Account();
      label done: {
        if EtherType(container) != ETHERTYPE_IP || Protocol(container) != IPPROTO_UDP {
          if EtherType(container) == ETHERTYPE_ARP {
            arp := arp + [container];
            verdict := Arp;
          } else {
            freed := freed + [container];
            verdict := NotIp;
          }
          break done;
        }
        if !CheckFrame(container) {
          freed := freed + [container];
          verdict := Broken;
          break done;
        }
        if cfg.myIP != DstIP(container) {
          freed := freed + [container];
          verdict := WrongDestination;
          break done;
        }
        if IsFragment(container) {
          var out := fragmentStore.AddFragment(container);
          verdict := FromStore(cfg, out);
          break done;
        }
        verdict := Route(cfg, container.bytes);
        if verdict.L0Mep? || verdict.L1Mep? {
          handed := handed + [container];
        } else {
          freed := freed + [container];
        }
      }
      BookedByVerdict(cfg, before, container, false, verdict);
    }

    /** Handles every container of the task; while the burst is being flushed it only frees them. */
    method Execute(containers: seq<Packet>, flushBurst: seq<bool>) returns (verdicts: seq<Verdict>)
      requires Valid() && |containers| == |flushBurst|
      modifies this, fragmentStore, fragmentStore.fragmentsById
      ensures Valid() && fragmentStore.fragmentsById == old(fragmentStore.fragmentsById)
      ensures Account() == HandleAll(cfg, old(Account()), containers, flushBurst)
      ensures |verdicts| == |containers|
      ensures forall i :: 0 <= i < |containers| ==>
        VerdictAt(cfg, old(Account()), containers, flushBurst, i, verdicts[i])
      ensures freed == old(freed) + Chosen(containers, verdicts, FreesInput)
      ensures handed == old(handed) + Chosen(containers, verdicts, HandsOnInput)
      ensures arp == old(arp) + Chosen(containers, verdicts, Answers)
      ensures forall c :: Places(Account(), c) == Places(old(Account()), c) + multiset(containers)[c]
    {
      hide Handle, Places, Judged, Merge, Consistent, Sharded, Chosen, FreesInput, HandsOnInput;
      verdicts := [];
      var i := 0;
      while i < |containers|
        invariant i <= |containers| && Valid() && fragmentStore.fragmentsById == old(fragmentStore.fragmentsById)
        invariant Account() == HandleAll(cfg, old(Account()), containers[..i], flushBurst[..i])
        invariant |verdicts| == i
        invariant forall j :: 0 <= j < i ==> VerdictAt(cfg, old(Account()), containers, flushBurst, j, verdicts[j])
      {
        ghost var before := Account();
        if flushBurst[i] {
          freed := freed + [containers[i]];
          FlushFrees(cfg, before, containers[i]);
          verdicts := verdicts + [Flushed];
        } else {
          var verdict := ProcessFrame(containers[i]);
          verdicts := verdicts + [verdict];
        }
        assert Account() == Handle(cfg, before, containers[i], flushBurst[i]);
        assert containers[..i + 1][..i] == containers[..i] && flushBurst[..i + 1][..i] == flushBurst[..i];
        i := i + 1;
      }
      assert containers[..i] == containers && flushBurst[..i] == flushBurst;
      BookedOverTask(cfg, old(Account()), containers, flushBurst, verdicts);
      forall c ensures Places(Account(), c) == Places(old(Account()), c) + multiset(containers)[c] {
        HandleAllConserves(cfg, old(Account()), containers, flushBurst, c);
      }
    }
  }
}
