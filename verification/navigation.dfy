/** The router collaborator (`useRouter` from Next.js), reduced to the paths pushed onto it. */
module Navigation {

  class Router {
    var pushed: seq<string>

    constructor ()
      ensures pushed == []
    {
      pushed := [];
    }

    /** `router.push(path)`: the path is appended to the navigation log. */
    method Push(path: string)
      modifies this
      ensures pushed == old(pushed) + [path]
    {
      pushed := pushed + [path];
    }
  }
}
