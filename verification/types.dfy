/**
  The records the views and the store exchange (src/types/index.ts).
  Dates are opaque instants; how they print is locale-dependent and not modelled.
 */
module Types {
  import opened Optional

  /** A `Date`, as milliseconds since the epoch. */
  type Timestamp = nat

  /** Chakra UI colour-scheme names that the status badges use. */
  datatype ColorScheme =
    | Gray | Orange | Blue | Cyan | Teal | Purple | Pink
    | LinkedIn | Facebook | Green | Red | Yellow

  datatype Constituent = Constituent(
    voterId: string,
    firstName: string,
    lastName: string,
    dateOfBirth: Timestamp,
    addressLine1: string,
    addressLine2: Option<string>,
    city: string,
    state: string,
    zip: string,
    partyAffiliation: string,
    phone: string,
    email: string,
    preferredContactMethod: string,
    registrationDate: Timestamp,
    votingPrecinct: string
  )

  /**
    A constituent's string-valued property read by its property name, as
    `constituent[name]` reads it; `None` for a date, a missing optional
    property or a name the record does not have.
   */
  function StringField(c: Constituent, name: string): Option<string> {
    if name == "voter_id" then Some(c.voterId)
    else if name == "first_name" then Some(c.firstName)
    else if name == "last_name" then Some(c.lastName)
    else if name == "address_line1" then Some(c.addressLine1)
    else if name == "address_line2" then c.addressLine2
    else if name == "city" then Some(c.city)
    else if name == "state" then Some(c.state)
    else if name == "zip" then Some(c.zip)
    else if name == "party_affiliation" then Some(c.partyAffiliation)
    else if name == "phone" then Some(c.phone)
    else if name == "email" then Some(c.email)
    else if name == "preferred_contact_method" then Some(c.preferredContactMethod)
    else if name == "voting_precinct" then Some(c.votingPrecinct)
    else None
  }

  datatype Issue = Issue(
    issueId: string,
    title: string,
    description: string,
    officialStance: string,
    status: string,
    createdDate: Timestamp,
    lastUpdated: Timestamp
  )

  /** An engagement link between a constituent and an issue. */
  datatype ConstituentIssue = ConstituentIssue(
    constituentId: string,
    issueId: string,
    dateAdded: string
  )

  datatype LinkedIssue = LinkedIssue(issueId: string)

  datatype CommunicationStatus = Pending | Replied | Archived

  datatype Communication = Communication(
    communicationId: string,
    constituentId: string,
    message: string,
    linkedIssues: seq<LinkedIssue>,
    draftReply: string,
    dateReceived: Timestamp,
    status: CommunicationStatus
  )
}
