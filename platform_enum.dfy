/** `PlatformEnum`: the music platforms the user can be connected to. */
module Platform {

  datatype PlatformEnum = LogOut | Spotify

  /** The implementation of the platform API an enum value dispatches to. */
  datatype PlatformAPI = LogOutAPI | SpotifyAPI

  /** `PlatformEnum.name`, the Kotlin enum constant's name. */
  function Name(p: PlatformEnum): string {
    match p
    case LogOut => "LOG_OUT"
    case Spotify => "SPOTIFY"
  }

  /** `getPlatformEnumFromName`: total; unknown names give `LOG_OUT`. */
  function PlatformEnumFromName(name: string): PlatformEnum {
    if name == Name(LogOut) then LogOut
    else if name == Name(Spotify) then Spotify
    else LogOut
  }

  /** `getPlatformAPI`: `SpotifyAPI` for `SPOTIFY`, `LogOutAPI` otherwise. */
  function GetPlatformAPI(p: PlatformEnum): (api: PlatformAPI)
    ensures api == SpotifyAPI <==> p == Spotify
  {
    match p
    case Spotify => SpotifyAPI
    case _ => LogOutAPI
  }

  /** Decoding a platform's name gives the platform back. */
  lemma NameRoundTrip(p: PlatformEnum)
    ensures PlatformEnumFromName(Name(p)) == p
  {
  }

  /** Names are distinct, so the decoder's first two branches never overlap. */
  lemma NameInjective(p: PlatformEnum, q: PlatformEnum)
    ensures Name(p) == Name(q) <==> p == q
  {
  }

  /** Every other string decodes to `LOG_OUT`, and `SPOTIFY` is decoded from
      its name only. */
  lemma UnknownNameIsLogOut(name: string)
    ensures name != Name(LogOut) && name != Name(Spotify) ==> PlatformEnumFromName(name) == LogOut
    ensures PlatformEnumFromName(name) == Spotify <==> name == "SPOTIFY"
  {
  }
}
