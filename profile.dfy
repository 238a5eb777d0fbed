/** The profile record of `src/models/profile.rs` and its two constructors. */
module ProfileModel {
  import opened Wrappers
  import opened Ids
  import opened Clock

  datatype Profile = Profile(
    profile_id: Uuid,
    user_id: Uuid,
    username: string,
    email: string,
    bio: Option<string>,
    profile_type: Option<string>,
    business: Option<string>,
    interests: Option<seq<string>>,
    created_at: Instant,
    updated_at: Instant)

  /** None of the four optional details is filled in. */
  predicate IsBare(p: Profile) {
    p.bio.None? && p.profile_type.None? && p.business.None? && p.interests.None?
  }

  /** `Profile::new(user_id, email, username)`: a bare profile for that user. */
  function New(id: Uuid, now: Instant, user_id: Uuid, email: string, username: string): (p: Profile)
    ensures p.user_id == user_id && p.email == email && p.username == username
    ensures IsBare(p)
    ensures p.profile_id == id && p.created_at == now && p.updated_at == now
  {
    Profile(id, user_id, username, email, None, None, None, None, now, now)
  }

  /** `Profile::new_with_details`: every detail present, each exactly as given. */
  function NewWithDetails(id: Uuid, now: Instant, user_id: Uuid, email: string, username: string,
                          bio: string, profile_type: string, business: string, interests: seq<string>): (p: Profile)
    ensures p.user_id == user_id && p.email == email && p.username == username
    ensures p.bio == Some(bio) && p.profile_type == Some(profile_type)
    ensures p.business == Some(business) && p.interests == Some(interests)
    ensures p.profile_id == id && p.created_at == now && p.updated_at == now
  {
    Profile(id, user_id, username, email, Some(bio), Some(profile_type), Some(business), Some(interests), now, now)
  }

  /** The two constructors agree on everything but the details, and only `new` gives a bare profile. */
  lemma ConstructorsDiffer(id: Uuid, now: Instant, user_id: Uuid, email: string, username: string,
                           bio: string, profile_type: string, business: string, interests: seq<string>)
    ensures var a, b := New(id, now, user_id, email, username),
                        NewWithDetails(id, now, user_id, email, username, bio, profile_type, business, interests);
      IsBare(a) && !IsBare(b) &&
      a == b.(bio := None, profile_type := None, business := None, interests := None)
  {
  }
}
