/** A summary of the bundled catalog `templesData` (`src/data/temples.ts`): for each of its 33
    temples the id, English name, district, state, rating, type and open flag, in catalog
    order, together with the `districts` table. */
module Fixture {
  import opened Seqs
  import Temples

  datatype Entry = Entry(id: string, name: string, district: string, state: string,
                         popularity: int, templeType: string, isOpen: bool)

  const Entries: seq<Entry> := [
      Entry("1", "Sri Lakshmi Narasimha Swamy Temple", "Yadadri Bhuvanagiri", "TS", 5, "Hill", true),
      Entry("2", "Ramappa Temple (Rudreshwara Temple)", "Mulugu", "TS", 4, "Ancient", true),
      Entry("3", "Bhadrachalam Temple", "Bhadradri Kothagudem", "TS", 5, "River", true),
      Entry("4", "Chilkur Balaji Temple", "Vikarabad", "TS", 4, "Ancient", true),
      Entry("5", "Keesaragutta Temple", "Medchal-Malkajgiri", "TS", 3, "Hill", true),
      Entry("6", "Birla Mandir (Hyderabad)", "Hyderabad", "TS", 4, "Modern", true),
      Entry("7", "Thousand Pillars Temple", "Warangal", "TS", 4, "Ancient", true),
      Entry("8", "Gnana Saraswati Temple (Basar)", "Nirmal", "TS", 4, "Ancient", true),
      Entry("9", "Sanghi Temple", "Rangareddy", "TS", 3, "Hill", true),
      Entry("10", "Karmanghat Hanuman Temple", "Hyderabad", "TS", 3, "Ancient", true),
      Entry("11", "Vemulawada Rajarajeshwara Temple", "Rajanna Sircilla", "TS", 4, "Ancient", true),
      Entry("12", "Komuravelli Mallanna Temple", "Siddipet", "TS", 4, "Ancient", true),
      Entry("13", "Kondagattu Anjaneya Swamy Temple", "Karimnagar", "TS", 4, "Hill", true),
      Entry("14", "Kolanupaka Jain Temple (Kulpakji)", "Bhuvanagiri", "TS", 3, "Ancient", true),
      Entry("15", "Peddamma Temple", "Hyderabad", "TS", 3, "Ancient", true),
      Entry("16", "Mahankali Temple (Ujjaini Mahankali)", "Hyderabad", "TS", 4, "Ancient", true),
      Entry("17", "Kaleshwaram (Kaleshwara Mukteswara Swamy)", "Jayashankar Bhupalpally", "TS", 3, "River", true),
      Entry("26", "Tirumala Venkateswara Temple (Tirupati)", "Chittoor", "AP", 5, "Hill", true),
      Entry("27", "Srisailam Mallikarjuna Jyotirlinga Temple", "Nandyal", "AP", 5, "Hill", true),
      Entry("28", "Kanaka Durga Temple", "Krishna", "AP", 5, "Hill", true),
      Entry("29", "Srikalahasti Temple", "Chittoor", "AP", 4, "Ancient", true),
      Entry("30", "Simhachalam Temple", "Visakhapatnam", "AP", 4, "Hill", true),
      Entry("31", "Annavaram Satyanarayana Swamy Temple", "Kakinada", "AP", 4, "Hill", true),
      Entry("32", "Kanipakam Vinayaka Temple", "Chittoor", "AP", 4, "Ancient", true),
      Entry("33", "Draksharama (Draksharama Bhimeswara Swamy)", "East Godavari", "AP", 4, "Ancient", true),
      Entry("34", "Kumararama (Samalkot)", "East Godavari", "AP", 3, "Ancient", true),
      Entry("35", "Ksheerarama (Palakollu)", "West Godavari", "AP", 3, "Ancient", true),
      Entry("36", "Amararama (Amaravati)", "Guntur", "AP", 3, "Ancient", true),
      Entry("37", "Lepakshi Veerabhadra Swamy Temple", "Anantapur", "AP", 4, "Ancient", true),
      Entry("38", "Penchalakona Sri Venkateswara Swamy Temple", "Nellore", "AP", 3, "Hill", true),
      Entry("39", "Mahanandi Temple", "Nandyal", "AP", 3, "Ancient", true),
      Entry("40", "Srikurmam Temple", "Srikakulam", "AP", 3, "Ancient", true),
      Entry("41", "Ramatheertham Temple", "Vizianagaram", "AP", 3, "Hill", true)
  ]

  function Ids(): (r: seq<string>)
    ensures |r| == |Entries| && forall i | 0 <= i < |r| :: r[i] == Entries[i].id
  {
    seq(|Entries|, i requires 0 <= i < |Entries| => Entries[i].id)
  }

  /** The `districts` table: the districts offered per state code. */
  const Districts: map<string, seq<string>> := map[
    "TS" := ["Hyderabad", "Warangal", "Nizamabad", "Khammam", "Karimnagar", "Adilabad",
             "Mahbubnagar", "Rangareddy", "Nalgonda", "Medak", "Jagtial", "Nirmal",
             "Bhadradri Kothagudem", "Siddipet", "Sangareddy", "Yadadri Bhuvanagiri",
             "Mulugu", "Vikarabad", "Medchal-Malkajgiri", "Rajanna Sircilla", "Jayashankar Bhupalpally"],
    "AP" := ["Visakhapatnam", "Vijayawada", "Guntur", "Nellore", "Kurnool", "Tirupati",
             "Rajahmundry", "Kakinada", "Eluru", "Ongole", "Nandyal", "Machilipatnam",
             "Tenali", "Proddatur", "Chittoor", "East Godavari", "West Godavari", "Krishna",
             "Anantapur", "Srikakulam", "Vizianagaram"]
  ]

  /** The exported `templeTypes` list. */
  const TempleTypeList: seq<string> := ["Ancient", "Modern", "Cave", "Hill", "River"]

  /** The catalog ids "1" to "17" and "26" to "41" are pairwise distinct. */
  const IdList: seq<string> := ["1", "2", "3", "4", "5", "6", "7", "8", "9", "10", "11", "12", "13", "14", "15", "16", "17",
      "26", "27", "28", "29", "30", "31", "32", "33", "34", "35", "36", "37", "38", "39", "40", "41"]

  lemma IdsAreListed()
    ensures Ids() == IdList
  {
  }

  lemma IdListDistinct()
    ensures NoDuplicates(IdList)
  {
    forall i, j | 0 <= i < j < |IdList| ensures IdList[i] != IdList[j] {
    }
  }

  lemma IdsDistinct()
    ensures |Entries| == 33
    ensures NoDuplicates(Ids())
  {
    IdsAreListed();
    IdListDistinct();
  }

  /** Every catalog temple has a state code, a declared type, a rating from 1 to 5 and is open. */
  lemma EntriesWellFormed()
    ensures forall i | 0 <= i < |Entries| ::
      Entries[i].state in Temples.StateCodes && Entries[i].templeType in Temples.TempleTypes
      && 1 <= Entries[i].popularity <= 5 && Entries[i].isOpen
  {
  }

  /** `districts` has exactly the two state codes as keys, and `templeTypes` lists exactly the
      five types of `Temple.templeType`, each once. */
  lemma TablesMatchTypes()
    ensures Districts.Keys == set c | c in Temples.StateCodes
    ensures TempleTypeList == Temples.TempleTypes && NoDuplicates(TempleTypeList)
  {
  }

  /** A temple's district need not be listed under its state: temple "14" is in "Bhuvanagiri",
      which the Telangana list does not contain. */
  lemma DistrictListNotAnInvariant()
    ensures Entries[13].id == "14" && Entries[13].state == "TS"
    ensures Entries[13].district !in Districts["TS"]
  {
  }
}
