/** The loop guard: it counts how often the latest action and result repeat, and warns or stops. */
module LoopGuard {
  import opened Numbers

  datatype Config = Config(enabled: bool, warningLimit: int, stallLimit: int)

  datatype Status = Ok | Warning | Stalled

  datatype Decision = Decision(status: Status, repetitionCount: int, fingerprint: string)

  /** The length of the longest stretch of equal elements at the end. */
  function Repeats(h: seq<string>): nat {
    if h == [] then 0
    else if |h| > 1 && h[|h| - 2] == h[|h| - 1] then 1 + Repeats(h[..|h| - 1])
    else 1
  }

  /** The last k elements exist and are all the same. */
  ghost predicate LastEqual(h: seq<string>, k: nat) {
    k <= |h| && forall i, j :: |h| - k <= i < |h| && |h| - k <= j < |h| ==> h[i] == h[j]
  }

  /** `Repeats` is that length: k equal elements end the history exactly when k is at most it. */
  lemma {:induction false} RepeatsIsLongest(h: seq<string>, k: nat)
    ensures LastEqual(h, k) <==> k <= Repeats(h)
  {
    if h != [] && k > 1 {
      var init := h[..|h| - 1];
      RepeatsIsLongest(init, k - 1);
      if LastEqual(h, k) {
        assert forall i, j :: |init| - (k - 1) <= i < |init| && |init| - (k - 1) <= j < |init| ==>
                 init[i] == h[i] == h[j] == init[j];
        assert h[|h| - 2] == h[|h| - 1];
      }
      if k <= Repeats(h) {
        assert LastEqual(init, k - 1);
        forall i, j | |h| - k <= i < |h| && |h| - k <= j < |h| ensures h[i] == h[j] {
          assert h[i] == if i < |init| then init[i] else h[|h| - 1];
          assert h[j] == if j < |init| then init[j] else h[|h| - 1];
          assert i < |init| ==> init[i] == init[|init| - 1];
          assert j < |init| ==> init[j] == init[|init| - 1];
        }
      }
    }
  }

  class Guard {
    const config: Config
    var lastFingerprint: string
    var repeatCount: int
    /** The fingerprints observed since the last reset. */
    ghost var history: seq<string>

    ghost predicate Valid()
      reads this
    {
      && repeatCount == Repeats(history)
      && lastFingerprint == if history == [] then "" else history[|history| - 1]
    }

    constructor (config: Config)
      ensures Valid() && history == [] && this.config == config
    {
      this.config := config;
      lastFingerprint, repeatCount, history := "", 0, [];
    }

    /** The fingerprint stands for the hash of the action and its result. */
    method Observe(fingerprint: string) returns (d: Decision)
      requires Valid()
      modifies this
      ensures Valid()
      ensures !config.enabled ==> history == old(history) && d == Decision(Ok, 1, "")
      ensures config.enabled ==>
                && history == old(history) + [fingerprint]
                && d.fingerprint == fingerprint && d.repetitionCount == Repeats(history)
                && (d.status == Stalled <==> LastEqual(history, Max(1, config.stallLimit)))
                && (d.status == Warning <==> !LastEqual(history, Max(1, config.stallLimit))
                                             && LastEqual(history, Max(1, config.warningLimit)))
    {
      if !config.enabled {
        return Decision(Ok, 1, "");
      }
      if fingerprint == lastFingerprint {
        repeatCount := repeatCount + 1;
      } else {
        lastFingerprint := fingerprint;
        repeatCount := 1;
      }
      assert (history + [fingerprint])[..|history|] == history;
      history := history + [fingerprint];
      RepeatsIsLongest(history, Max(1, config.stallLimit));
      RepeatsIsLongest(history, Max(1, config.warningLimit));
      if repeatCount >= Max(1, config.stallLimit) {
        return Decision(Stalled, repeatCount, fingerprint);
      }
      if repeatCount >= Max(1, config.warningLimit) {
        return Decision(Warning, repeatCount, fingerprint);
      }
      d := Decision(Ok, repeatCount, fingerprint);
    }

    method Reset()
      modifies this
      ensures Valid() && history == []
    {
      lastFingerprint, repeatCount, history := "", 0, [];
    }
  }
}
