/** The cookie banner. At page load, when no `cookieConsent` entry is stored, the banner
    is armed: the first scroll or a 3000 ms fallback timer shows it, guarded by a `shown`
    latch the two share. Accepting or rejecting stores the choice and hides the banner.
    The stored entry is reduced to the choice it records. */
module CookieConsent {
  import opened Options

  class Banner {
    /** The `cookieConsent` entry of local storage. */
    var stored: Option<bool>
    /** What was stored when the page loaded. */
    const storedAtLoad: Option<bool>
    var visible: bool
    /** The latch of the closure created by `checkCookieConsent`. */
    var shown: bool
    var scrollListening: bool
    var timerPending: bool
    /** How many times the banner has been made visible. */
    ghost var showCount: nat

    ghost predicate Valid()
      reads this
    {
      && showCount == (if shown then 1 else 0)
      && (visible ==> shown)
      && (storedAtLoad.Some? ==> !shown && !scrollListening && !timerPending)
      && (shown ==> !scrollListening)
    }

    /** Page load: `checkCookieConsent` arms the scroll listener and the fallback timer
        only when no consent is stored. */
    constructor (consent: Option<bool>)
      ensures Valid()
      ensures stored == consent && storedAtLoad == consent && !visible && showCount == 0
      ensures scrollListening == consent.None? && timerPending == consent.None?
    {
      stored := consent;
      storedAtLoad := consent;
      visible := false;
      shown := false;
      scrollListening := consent.None?;
      timerPending := consent.None?;
      showCount := 0;
    }

    /** `showBanner`. */
    method Show()
      requires Valid() && storedAtLoad.None?
      modifies this
      ensures Valid() && shown && stored == old(stored) && timerPending == old(timerPending)
      ensures old(shown) ==> unchanged(this)
      ensures !old(shown) ==> visible && showCount == 1
    {
      if !shown {
        shown := true;
        visible := true;
        scrollListening := false;
        showCount := showCount + 1;
      }
    }

    /** A scroll event: the one-time listener, if still attached, shows the banner. */
    method OnScroll()
      requires Valid()
      modifies this
      ensures Valid() && showCount <= 1
      ensures !scrollListening && stored == old(stored) && timerPending == old(timerPending)
      ensures old(scrollListening) ==> visible && showCount == 1
      ensures !old(scrollListening) ==> unchanged(this)
    {
      if scrollListening {
        scrollListening := false;
        Show();
      }
    }

    /** The 3000 ms fallback: shows the banner unless the latch is already set. */
    method OnFallbackTimer()
      requires Valid() && timerPending
      modifies this
      ensures Valid() && showCount == 1 && !timerPending && shown
      ensures !old(shown) ==> visible
      ensures old(shown) ==> visible == old(visible) && showCount == old(showCount)
      ensures stored == old(stored)
    {
      timerPending := false;
      if !shown {
        Show();
      }
    }

    /** `setCookieConsent`: stores the choice and hides the banner. */
    method SetConsent(consent: bool)
      requires Valid()
      modifies this
      ensures Valid() && stored == Some(consent) && !visible
      ensures shown == old(shown) && showCount == old(showCount)
      ensures scrollListening == old(scrollListening) && timerPending == old(timerPending)
    {
      stored := Some(consent);
      visible := false;
    }
  }
}
