/** The navigation bar (frontend/src/components/Navbar.tsx): which links it shows,
    and logout. */
module Navbar {
  import Api
  import Browser

  const LoginPage: string := "/login"

  datatype Item =
    | Link(to: string, text: string)
    | LogoutButton

  const HomeLink: Item := Link("/", "ChessLens")
  const MemberItems: seq<Item> := [Link("/library", "My Library"), LogoutButton]
  const GuestItems: seq<Item> := [Link("/login", "Login"), Link("/register", "Join to Save Games")]

  /** `isLoggedIn`: a stored, non-empty token. */
  predicate IsLoggedIn(storage: map<string, string>)
  {
    Api.HasToken(storage)
  }

  /** The items on the right of the bar: exactly one of the two sets. */
  function NavItems(storage: map<string, string>): (items: seq<Item>)
    ensures IsLoggedIn(storage) <==> items == MemberItems
    ensures !IsLoggedIn(storage) <==> items == GuestItems
    ensures LogoutButton in items <==> IsLoggedIn(storage)
  {
    if IsLoggedIn(storage) then MemberItems else GuestItems
  }

  /** `handleLogout`: remove the token, then route to the login page. */
  method HandleLogout(window: Browser.Window)
    modifies window
    ensures window.storage == old(window.storage) - {Api.TokenKey}
    ensures window.navigations == old(window.navigations) + [Browser.Route(LoginPage)]
    ensures window.alerts == old(window.alerts) && window.tabs == old(window.tabs)
    ensures !IsLoggedIn(window.storage)
    ensures NavItems(window.storage) == GuestItems
  {
    window.RemoveItem(Api.TokenKey);
    window.Navigate(Browser.Route(LoginPage));
  }

  /** Whatever the store held, removing the token logs out and shows the guest links. */
  lemma LogoutShowsGuestItems(storage: map<string, string>)
    ensures !IsLoggedIn(storage - {Api.TokenKey})
    ensures NavItems(storage - {Api.TokenKey}) == GuestItems
  {
  }
}
