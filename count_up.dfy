/** The one-shot guard of `ScrollEffects.initCountUp`: each `[data-count]`
    element has its own observer, and its count animation starts the first
    time the element intersects while `data-counted` is not set, after
    which the attribute is set and the element is no longer observed. */
module CountUp {
  import opened Wrappers

  /** `counter.dataset.counted` as a condition: a missing attribute and the
      empty string are false, any other text is true. */
  predicate IsSet(attr: Option<string>) {
    attr.Some? && attr.value != ""
  }

  /** Whether an observer batch starts the animation: some entry intersects
      while the attribute is still unset. */
  predicate StartsAnimation(observing: bool, counted: Option<string>, entries: seq<bool>) {
    observing && !IsSet(counted) && exists k :: 0 <= k < |entries| && entries[k]
  }

  class Counter {
    /** The element's `data-counted` attribute. */
    var counted: Option<string>
    /** Whether the element's observer still watches it. */
    var observing: bool
    /** How many count animations have been started on the element. */
    var animations: nat

    /** The animation has started at most once, and once it has, the
        attribute is set and the element is no longer observed. */
    ghost predicate Valid()
      reads this
    {
      animations <= 1 && (animations == 1 ==> IsSet(counted) && !observing)
    }

    /** The element as found in the markup, just observed. */
    constructor (counted: Option<string>)
      ensures Valid()
      ensures this.counted == counted && observing && animations == 0
    {
      this.counted := counted;
      observing := true;
      animations := 0;
    }

    /** One batch of observer entries for this element (only delivered
        while it is observed), each saying whether it intersects. */
    method OnEntries(entries: seq<bool>)
      requires Valid()
      modifies this
      ensures Valid()
      ensures StartsAnimation(old(observing), old(counted), entries) ==>
        animations == old(animations) + 1 && counted == Some("true") && !observing
      ensures !StartsAnimation(old(observing), old(counted), entries) ==>
        animations == old(animations) && counted == old(counted) && observing == old(observing)
    {
      if !observing {
        return;
      }
      var i := 0;
      while i < |entries|
        invariant 0 <= i <= |entries|
        invariant Valid()
        invariant StartsAnimation(old(observing), old(counted), entries[..i]) ==>
          animations == old(animations) + 1 && counted == Some("true") && !observing
        invariant !StartsAnimation(old(observing), old(counted), entries[..i]) ==>
          animations == old(animations) && counted == old(counted) && observing == old(observing)
      {
        assert entries[..i + 1][..i] == entries[..i];
        assert entries[..i + 1][i] == entries[i];
        if entries[i] && !IsSet(counted) {
          counted := Some("true");
          animations := animations + 1;
          observing := false;
        }
        i := i + 1;
      }
      assert entries[..i] == entries;
    }
  }

  /** A counter revealed, scrolled away and revealed again animates once. */
  method RevealTwice() returns (c: Counter)
    ensures c.animations == 1
  {
    c := new Counter(None);
    assert StartsAnimation(c.observing, c.counted, [true]) by {
      assert [true][0];
    }
    c.OnEntries([true]);
    c.OnEntries([false]);
    c.OnEntries([true]);
  }
}
