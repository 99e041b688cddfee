/** The client-side router: the current route name and the address bar,
    kept in step through `history.pushState` and the `popstate` event. */
module Router {

  /** The route a path names: `/` is the patient app, any other path its
      text after the leading slash. */
  function PathToRoute(path: string): (route: string)
    ensures path == "/" ==> route == "patient"
    ensures path != "/" && |path| >= 1 ==> route == path[1..]
  {
    if path == "/" then "patient" else if |path| >= 1 then path[1..] else ""
  }

  /** The path shown for a route. */
  function RouteToPath(route: string): (path: string)
    ensures |path| >= 1 && path[0] == '/'
    ensures route == "patient" ==> path == "/"
    ensures route != "patient" ==> path == "/" + route
  {
    if route == "patient" then "/" else "/" + route
  }

  /** Every named route survives the trip to the address bar and back. */
  lemma RouteRoundTrip(route: string)
    requires route != ""
    ensures PathToRoute(RouteToPath(route)) == route
  {
    if route != "patient" {
      assert ("/" + route)[1..] == route;
    }
  }

  /** Every path survives the trip to a route and back, except `/patient`,
      which is shown as `/` because both name the patient app. */
  lemma PathRoundTrip(path: string)
    requires |path| >= 1 && path[0] == '/'
    ensures RouteToPath(PathToRoute(path)) == path <==> path != "/patient"
    ensures PathToRoute("/") == PathToRoute("/patient") == "patient"
  {
    if path != "/" {
      assert path == "/" + path[1..];
      if path[1..] == "patient" {
        assert path == "/patient";
      }
    }
    assert "/patient"[1..] == "patient";
  }

  class RouteState {
    var route: string
    /** `window.location.pathname`. */
    var location: string
    /** The paths handed to `history.pushState`, oldest first. */
    var pushed: seq<string>

    /** A non-empty route is the one the address bar names. */
    ghost predicate Valid()
      reads this
    {
      route != "" ==> PathToRoute(location) == route
    }

    /** Mounting: the route comes from the address bar, and the effect on
        `route` pushes its path once. */
    constructor(pathname: string)
      ensures Valid()
      ensures route == PathToRoute(pathname)
      ensures location == RouteToPath(route) && pushed == [location]
    {
      route := PathToRoute(pathname);
      location := RouteToPath(PathToRoute(pathname));
      pushed := [RouteToPath(PathToRoute(pathname))];
      if PathToRoute(pathname) != "" {
        RouteRoundTrip(PathToRoute(pathname));
      }
    }

    /** `setRoute`: a new value re-runs the effect, which pushes its path; the
        same value is no state change and pushes nothing. */
    method SetRoute(r: string)
      requires Valid()
      modifies this
      ensures Valid()
      ensures route == r
      ensures r != old(route) ==> location == RouteToPath(r) && pushed == old(pushed) + [RouteToPath(r)]
      ensures r == old(route) ==> location == old(location) && pushed == old(pushed)
    {
      if r != route {
        route := r;
        location := RouteToPath(r);
        pushed := pushed + [location];
        if r != "" {
          RouteRoundTrip(r);
        }
      }
    }

    /** Back or forward: the browser shows `path`, and the route follows it
        through the same mapping as at start-up. */
    method PopState(path: string)
      requires Valid()
      modifies this
      ensures Valid()
      ensures route == PathToRoute(path)
      ensures PathToRoute(path) != old(route) ==> location == RouteToPath(route) && pushed == old(pushed) + [location]
      ensures PathToRoute(path) == old(route) ==> location == path && pushed == old(pushed)
    {
      var r := PathToRoute(path);
      if r != route {
        route := r;
        location := RouteToPath(r);
        pushed := pushed + [location];
        if r != "" {
          RouteRoundTrip(r);
        }
      } else {
        location := path;
      }
    }
  }
}
