/** The page transition wrapper: two state cells, the location being
    displayed and the animation stage, updated by the location-change effect
    and by the animation-end handler. */
module PageTransition {

  /** A router location; only `pathname` is compared. */
  datatype Location = Location(pathname: string, search: string, hash: string, key: string)

  const FadeIn := "animate-fade-in"
  const FadeOut := "animate-fade-out"

  class Transition {
    var displayLocation: Location
    var transitionStage: string

    /** The stage is always one of the two animation classes. */
    ghost predicate Valid()
      reads this
    {
      transitionStage == FadeIn || transitionStage == FadeOut
    }

    /** Both cells start from the current location, fading in. */
    constructor (location: Location)
      ensures Valid()
      ensures displayLocation == location && transitionStage == FadeIn
    {
      displayLocation := location;
      transitionStage := FadeIn;
    }

    /** The effect run when `location` or `displayLocation` changes: a new
        path starts the fade-out; the same path changes nothing. */
    method LocationEffect(location: Location)
      requires Valid()
      modifies this
      ensures Valid()
      ensures displayLocation == old(displayLocation)
      ensures location.pathname != old(displayLocation.pathname) ==> transitionStage == FadeOut
      ensures location.pathname == old(displayLocation.pathname) ==> transitionStage == old(transitionStage)
    {
      if location.pathname != displayLocation.pathname {
        transitionStage := FadeOut;
      }
    }

    /** `handleAnimationEnd`: the end of a fade-out shows the current
        location and fades in; the end of a fade-in changes nothing. */
    method HandleAnimationEnd(location: Location)
      requires Valid()
      modifies this
      ensures Valid()
      ensures old(transitionStage) == FadeOut ==> transitionStage == FadeIn && displayLocation == location
      ensures old(transitionStage) != FadeOut ==>
                transitionStage == old(transitionStage) && displayLocation == old(displayLocation)
    {
      if transitionStage == FadeOut {
        transitionStage := FadeIn;
        displayLocation := location;
      }
    }

    /** One navigation to `location`: the effect fades out, the fade-out
        ends, and the effect runs again because `displayLocation` changed.
        It ends fading in on the new location, and the second effect run
        does not start another fade-out. */
    method Navigate(location: Location)
      requires Valid()
      requires location.pathname != displayLocation.pathname
      modifies this
      ensures Valid()
      ensures displayLocation == location && transitionStage == FadeIn
    {
      LocationEffect(location);
      HandleAnimationEnd(location);
      LocationEffect(location);
    }
  }
}
