/** `User`: the account shown once a streaming platform is connected. */
module UserData {
  import opened ImageData

  datatype User = User(name: string, images: seq<Image>)

  /** `User.LOGGED_OUT`: empty name and the single image `Image.EMPTY`. */
  const LOGGED_OUT: User := User("", [EMPTY])

  /** `getProfilePictureURL()`: `images.firstOrNull()?.url ?: ""`. */
  function ProfilePictureURL(u: User): string {
    if |u.images| > 0 then u.images[0].url else ""
  }

  /** `Array.contentEquals` on image arrays: same length and pairwise
      `Image.equals`, i.e. pairwise equal URLs. */
  predicate ContentEquals(xs: seq<Image>, ys: seq<Image>) {
    |xs| == |ys| && forall i :: 0 <= i < |xs| ==> ImageEquals(xs[i], ys[i])
  }

  /** `User.equals`: same name and content-equal image arrays. (The identity
      short cut `this === other` agrees with this, since the relation is
      reflexive.) */
  predicate UserEquals(a: User, b: User) {
    a.name == b.name && ContentEquals(a.images, b.images)
  }

  /** The profile picture is the first image's URL, and "" without images. */
  lemma ProfilePictureIsFirstURL(u: User)
    ensures ProfilePictureURL(u) == "" <==> |u.images| == 0 || u.images[0].url == ""
    ensures |u.images| > 0 ==> ImageEquals(u.images[0], Image(0, 0, ProfilePictureURL(u)))
  {
  }

  lemma LoggedOutHasNoPicture()
    ensures ProfilePictureURL(LOGGED_OUT) == ""
  {
  }

  /** User equality is an equivalence. */
  lemma UserEqualsIsEquivalence(a: User, b: User, c: User)
    ensures UserEquals(a, a)
    ensures UserEquals(a, b) == UserEquals(b, a)
    ensures UserEquals(a, b) && UserEquals(b, c) ==> UserEquals(a, c)
  {
  }

  /** Equal users show the same profile picture. */
  lemma EqualUsersSamePicture(a: User, b: User)
    requires UserEquals(a, b)
    ensures ProfilePictureURL(a) == ProfilePictureURL(b)
  {
  }

  /** A user counts as logged out exactly when its name is empty and it has a
      single image with an empty URL, whatever that image's size. */
  lemma LoggedOutCharacterization(u: User)
    ensures UserEquals(u, LOGGED_OUT) <==> u.name == "" && |u.images| == 1 && u.images[0].url == ""
  {
  }
}
