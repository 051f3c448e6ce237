/** The four records the app persists, with the defaults their Kotlin constructors supply. */
module Records {

  /** A phone-directory entry; `hours` defaults to "", `category` to "Other". */
  datatype Contact = Contact(name: string, phone: string, hours: string, category: string, favorite: bool)

  /** The resident's profile; every field defaults to "". `myIdUri` names the stored My-ID image. */
  datatype Profile = Profile(name: string, apartment: string, profilePhotoUri: string, myIdUri: string)

  const DefaultProfile := Profile("", "", "", "")

  /** A visit: `arrival` and `departure` are stored as "HH:mm" text and `date` as ISO yyyy-MM-dd
      text. The id is a random UUID chosen by the caller. */
  datatype Visitor = Visitor(id: string, name: string, idImageUri: string, arrival: string, departure: string, date: string)

  /** A visitor kept for reuse: a name and the private copy of their ID image. */
  datatype SavedPerson = SavedPerson(id: string, name: string, idImageUri: string)

  /** `Contact(name, phone, hours, category)` with the favorite flag left at its default. */
  function NewContact(name: string, phone: string, hours: string, category: string): (c: Contact)
    ensures !c.favorite && c.name == name && c.phone == phone && c.hours == hours && c.category == category
  {
    Contact(name, phone, hours, category, false)
  }
}
