/** The business record of `src/models/business.rs`. */
module BusinessModel {
  import opened Wrappers
  import opened Ids

  datatype Business = Business(
    business_id: Uuid,
    user_ids: Option<seq<Uuid>>,
    name: string,
    description: string,
    logo: Option<string>,
    pictures: Option<seq<string>>,
    founder: string,
    industry: string,
    phone: string,
    address: Option<string>,
    city: Option<string>,
    region: Option<string>,
    country: string,
    website: Option<string>,
    contact_email: Option<string>,
    created_at: string,
    updated_at: string)

  /** None of the seven optional details is filled in. */
  predicate HasNoDetails(b: Business) {
    b.logo.None? && b.pictures.None? && b.address.None? && b.city.None? &&
    b.region.None? && b.website.None? && b.contact_email.None?
  }

  /**
    `Business::new`. The timestamps are `Utc::now().to_string()`, so `now` is the clock's
    text; the identifier generator is the parameter `id`.
  */
  function New(id: Uuid, now: string, user_ids: Option<seq<Uuid>>, name: string, description: string,
               founder: string, industry: string, phone: string, country: string): (b: Business)
    ensures b.user_ids == user_ids && b.name == name && b.description == description
    ensures b.founder == founder && b.industry == industry && b.phone == phone && b.country == country
    ensures HasNoDetails(b)
    ensures b.business_id == id && b.created_at == now && b.updated_at == now
  {
    Business(id, user_ids, name, description, None, None, founder, industry, phone,
             None, None, None, country, None, None, now, now)
  }
}
