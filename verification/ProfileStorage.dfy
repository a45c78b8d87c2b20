/** Refresh tokens and consumed markers in browser storage: one shared area and one area a tab. */
module ProfileStorage {
  type Profile = nat

  /** A server-issued refresh token; the secret comes with one expiry time. */
  datatype RefreshToken = RefreshToken(secret: nat, expiresAt: int)

  /** A stored text is a well-formed record or something that does not parse as one. */
  datatype Slot = Record(token: RefreshToken) | Unreadable

  datatype Located = Located(token: RefreshToken, persistent: bool) | Nowhere

  /** The two areas as one tab sees them. */
  datatype View = View(session: map<Profile, Slot>, local: map<Profile, Slot>)

  predicate Holds(area: map<Profile, Slot>, profile: Profile, now: int) {
    profile in area && area[profile].Record? && area[profile].token.expiresAt > now
  }

  function Read(view: View, profile: Profile, now: int): Located {
    if Holds(view.session, profile, now) then Located(view.session[profile].token, false)
    else if Holds(view.local, profile, now) then Located(view.local[profile].token, true)
    else Nowhere
  }

  /** Storing empties the other area first; the write itself may be refused by the browser. */
  function Stored(view: View, profile: Profile, token: RefreshToken, persistent: bool, refused: bool): View {
    if persistent then
      View(view.session - {profile}, if refused then view.local else view.local[profile := Record(token)])
    else
      View(if refused then view.session else view.session[profile := Record(token)], view.local - {profile})
  }

  function Cleared(view: View, profile: Profile): View {
    View(view.session - {profile}, view.local - {profile})
  }

  /** A marker says who consumed a scope; an unreadable one counts as consumed. */
  datatype Phase = Pending | Succeeded | Failed
  datatype Marker = Marker(expiresAt: int, phase: Phase) | Damaged

  /** The digest of a profile and a token, taken as injective. */
  datatype Scope = Scope(profile: Profile, token: RefreshToken)

  predicate MarkerExpired(marker: Marker, now: int) {
    marker.Marker? && marker.expiresAt <= now
  }

  /** Reading a marker, which may fail; an expired one is removed, which may fail as well. */
  predicate Consumed(markers: map<Scope, Marker>, scope: Scope, now: int, readable: bool, removable: bool) {
    !readable || (scope in markers && !(MarkerExpired(markers[scope], now) && removable))
  }

  /** A stored token is read back until it expires, whatever was stored before in either area. */
  lemma ReadAfterStore(view: View, profile: Profile, token: RefreshToken, persistent: bool, now: int)
    ensures Read(Stored(view, profile, token, persistent, false), profile, now)
         == if token.expiresAt > now then Located(token, persistent) else Nowhere
  {
  }

  /** Other profiles are untouched by storing and clearing; a cleared profile needs a new login. */
  lemma OtherProfilesKept(view: View, profile: Profile, other: Profile, token: RefreshToken,
                          persistent: bool, refused: bool, now: int)
    ensures other != profile ==> Read(Stored(view, profile, token, persistent, refused), other, now) == Read(view, other, now)
    ensures other != profile ==> Read(Cleared(view, profile), other, now) == Read(view, other, now)
    ensures Read(Cleared(view, profile), profile, now) == Nowhere
  {
  }

  class BrowserStorage {
    var session: map<Profile, Slot>
    var local: map<Profile, Slot>
    var markers: map<Scope, Marker>

    ghost function Areas(): View
      reads this
    {
      View(session, local)
    }

    method ReadRefreshToken(profile: Profile, now: int) returns (found: Located)
      ensures found == Read(Areas(), profile, now)
    {
      var areas := [(session, false), (local, true)];
      for index := 0 to 2
        invariant forall i :: 0 <= i < index ==> !Holds(areas[i].0, profile, now)
      {
        var (area, persistent) := areas[index];
        if profile in area {
          match area[profile]
          case Record(token) =>
            if token.expiresAt > now {
              assert index == 0 ==> area == session;
              assert index == 1 ==> !Holds(areas[0].0, profile, now);
              return Located(token, persistent);
            }
          case Unreadable =>
        }
      }
      assert !Holds(areas[0].0, profile, now) && !Holds(areas[1].0, profile, now);
      found := Nowhere;
    }

    method StoreRefreshToken(profile: Profile, token: RefreshToken, persistent: bool, refused: bool)
      returns (ok: bool)
      modifies this`session, this`local
      ensures Areas() == Stored(old(Areas()), profile, token, persistent, refused) && ok == !refused
    {
      if persistent {
        session := session - {profile};
      } else {
        local := local - {profile};
      }
      if refused {
        return false;
      }
      if persistent {
        local := local[profile := Record(token)];
      } else {
        session := session[profile := Record(token)];
      }
      ok := true;
    }

    method ClearRefreshToken(profile: Profile)
      modifies this`session, this`local
      ensures Areas() == Cleared(old(Areas()), profile)
    {
      session := session - {profile};
      local := local - {profile};
    }

    /** True unless no marker is there or it has expired; an expired marker is removed. */
    method WasConsumed(scope: Scope, now: int, readable: bool, removable: bool) returns (consumed: bool)
      modifies this`markers
      ensures consumed == Consumed(old(markers), scope, now, readable, removable)
      ensures markers == if consumed then old(markers) else old(markers) - {scope}
    {
      if !readable {
        return true;
      }
      if scope !in markers {
        assert markers - {scope} == markers;
        return false;
      }
      match markers[scope]
      case Damaged => return true;
      case Marker(expiresAt, _) =>
        if expiresAt <= now && removable {
          markers := markers - {scope};
          return false;
        }
        return true;
    }

    method WriteConsumed(scope: Scope, expiresAt: int, phase: Phase, refused: bool) returns (ok: bool)
      modifies this`markers
      ensures ok == !refused
      ensures markers == if refused then old(markers) else old(markers)[scope := Marker(expiresAt, phase)]
    {
      if refused {
        return false;
      }
      markers := markers[scope := Marker(expiresAt, phase)];
      ok := true;
    }
  }
}
