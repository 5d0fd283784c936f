/**
 * The static university and course tables (`utils/sampleData.go`) and
 * their two lookups: the university of an address, matched through the
 * institution named in its domain, and the courses of a department.
 */
module SampleData {
  import opened Wrappers
  import opened Text
  import opened Validation

  datatype University = University(
    name: string,
    abbreviation: string,
    location: string,
    website: string,
    emailDomain: string,
    established: int,
    departments: seq<string>)

  datatype Course = Course(title: string, department: string, code: string)

  const AAU := University(
    "Addis Ababa University", "AAU", "Addis Ababa", "https://www.aau.edu.et", "aau.edu.et", 1950,
    ["Computer Science", "Electrical Engineering", "Mechanical Engineering", "Civil Engineering",
     "Mathematics", "Physics", "Chemistry", "Biology", "Economics", "Business Administration",
     "Law", "Medicine", "Pharmacy", "Agriculture"])

  const ASTU := University(
    "Adama Science and Technology University", "ASTU", "Adama", "https://www.astu.edu.et", "astu.edu.et", 1993,
    ["Computer Science", "Information Technology", "Electrical Engineering", "Mechanical Engineering",
     "Civil Engineering", "Chemical Engineering", "Applied Mathematics", "Applied Physics",
     "Applied Chemistry", "Biotechnology"])

  const BDU := University(
    "Bahir Dar University", "BDU", "Bahir Dar", "https://www.bdu.edu.et", "bdu.edu.et", 1963,
    ["Computer Science", "Electrical Engineering", "Mechanical Engineering", "Civil Engineering",
     "Water Resources Engineering", "Textile Engineering", "Agriculture", "Natural Resources",
     "Economics", "Business Administration"])

  const JU := University(
    "Jimma University", "JU", "Jimma", "https://www.ju.edu.et", "ju.edu.et", 1983,
    ["Computer Science", "Electrical Engineering", "Mechanical Engineering", "Civil Engineering",
     "Biomedical Engineering", "Agriculture", "Medicine", "Pharmacy", "Economics",
     "Business Administration"])

  const MU := University(
    "Mekelle University", "MU", "Mekelle", "https://www.mu.edu.et", "mu.edu.et", 1991,
    ["Computer Science", "Electrical Engineering", "Mechanical Engineering", "Civil Engineering",
     "Mining Engineering", "Architecture", "Medicine", "Pharmacy", "Economics",
     "Business Administration"])

  /** `EthiopianUniversities`, in table order. */
  const EthiopianUniversities: seq<University> := [AAU, ASTU, BDU, JU, MU]

  /** `SampleCourses`, in table order. */
  const SampleCourses: seq<Course> := [
    Course("Introduction to Programming", "Computer Science", "CS101"),
    Course("Data Structures and Algorithms", "Computer Science", "CS201"),
    Course("Database Systems", "Computer Science", "CS301"),
    Course("Software Engineering", "Computer Science", "CS401"),
    Course("Computer Networks", "Computer Science", "CS402"),
    Course("Artificial Intelligence", "Computer Science", "CS403"),
    Course("Web Development", "Computer Science", "CS404"),
    Course("Mobile Application Development", "Computer Science", "CS405"),
    Course("Circuit Analysis", "Electrical Engineering", "EE101"),
    Course("Digital Electronics", "Electrical Engineering", "EE201"),
    Course("Electromagnetic Theory", "Electrical Engineering", "EE301"),
    Course("Control Systems", "Electrical Engineering", "EE401"),
    Course("Power Systems", "Electrical Engineering", "EE402"),
    Course("Communication Systems", "Electrical Engineering", "EE403"),
    Course("Engineering Mechanics", "Mechanical Engineering", "ME101"),
    Course("Thermodynamics", "Mechanical Engineering", "ME201"),
    Course("Fluid Mechanics", "Mechanical Engineering", "ME301"),
    Course("Machine Design", "Mechanical Engineering", "ME401"),
    Course("Manufacturing Processes", "Mechanical Engineering", "ME402"),
    Course("Engineering Drawing", "Civil Engineering", "CE101"),
    Course("Strength of Materials", "Civil Engineering", "CE201"),
    Course("Structural Analysis", "Civil Engineering", "CE301"),
    Course("Reinforced Concrete Design", "Civil Engineering", "CE401"),
    Course("Transportation Engineering", "Civil Engineering", "CE402"),
    Course("Water Resources Engineering", "Civil Engineering", "CE403"),
    Course("Calculus I", "Mathematics", "MATH101"),
    Course("Calculus II", "Mathematics", "MATH201"),
    Course("Linear Algebra", "Mathematics", "MATH301"),
    Course("Differential Equations", "Mathematics", "MATH401"),
    Course("Numerical Methods", "Mathematics", "MATH402"),
    Course("General Physics I", "Physics", "PHY101"),
    Course("General Physics II", "Physics", "PHY201"),
    Course("Modern Physics", "Physics", "PHY301"),
    Course("Quantum Mechanics", "Physics", "PHY401"),
    Course("Principles of Economics", "Economics", "ECON101"),
    Course("Microeconomics", "Economics", "ECON201"),
    Course("Macroeconomics", "Economics", "ECON301"),
    Course("Development Economics", "Economics", "ECON401"),
    Course("Introduction to Business", "Business Administration", "BUS101"),
    Course("Principles of Management", "Business Administration", "BUS201"),
    Course("Marketing Management", "Business Administration", "BUS301"),
    Course("Financial Management", "Business Administration", "BUS401"),
    Course("Operations Management", "Business Administration", "BUS402")]

  /** The first university whose `email_domain` equals `key`. */
  function FindByDomain(us: seq<University>, key: string): (r: Option<University>)
    ensures r.None? <==> forall i :: 0 <= i < |us| ==> us[i].emailDomain != key
    ensures r.Some? ==> exists i :: 0 <= i < |us| && us[i] == r.value && us[i].emailDomain == key
                                    && forall j :: 0 <= j < i ==> us[j].emailDomain != key
  {
    if |us| == 0 then None
    else if us[0].emailDomain == key then Some(us[0])
    else
      var r := FindByDomain(us[1..], key);
      assert forall i :: 1 <= i < |us| ==> us[i] == us[1..][i - 1];
      if r.Some? then
        var i :| 0 <= i < |us[1..]| && us[1..][i] == r.value && us[1..][i].emailDomain == key
                 && forall j :: 0 <= j < i ==> us[1..][j].emailDomain != key;
        assert us[i + 1] == r.value && forall j :: 0 <= j < i + 1 ==> us[j].emailDomain != key;
        r
      else r
  }

  /** `GetUniversityByEmailDomain` as written: the institution name ("aau")
      is compared with the whole domain ("aau.edu.et"). */
  function GetUniversityByEmailDomain(email: string): Option<University>
  {
    FindByDomain(EthiopianUniversities, GetInstitutionFromEmail(email))
  }

  /** The lookup as evidently intended: the institution with the suffix put
      back, lower-cased, is compared with the domain. */
  function GetUniversityByEmailDomainCorrected(email: string): Option<University>
  {
    var institution := GetInstitutionFromEmail(email);
    if institution == "" then None
    else FindByDomain(EthiopianUniversities, ToLower(institution + InstitutionalSuffix))
  }

  /** `GetCoursesByDepartment`: the courses of `department`, in table order. */
  function CoursesIn(courses: seq<Course>, department: string): (r: seq<Course>)
    ensures |r| <= |courses|
    ensures forall i :: 0 <= i < |r| ==> r[i].department == department && r[i] in courses
    ensures forall c :: c in courses && c.department == department ==> c in r
  {
    if |courses| == 0 then []
    else
      var rest := CoursesIn(courses[1..], department);
      if courses[0].department == department then [courses[0]] + rest else rest
  }

  function GetCoursesByDepartment(department: string): seq<Course>
  {
    CoursesIn(SampleCourses, department)
  }

  // ---------------------------------------------------------------------
  // Properties of the tables
  // ---------------------------------------------------------------------

  /** Every university's domain is its lower-cased abbreviation followed by
      ".edu.et". */
  lemma DomainsFollowAbbreviations()
    ensures forall i :: 0 <= i < |EthiopianUniversities| ==>
              EthiopianUniversities[i].emailDomain == ToLower(EthiopianUniversities[i].abbreviation) + InstitutionalSuffix
  {
    assert ToLower("AAU") == "aau" && ToLower("ASTU") == "astu" && ToLower("BDU") == "bdu";
    assert ToLower("JU") == "ju" && ToLower("MU") == "mu";
  }

  /** The first-two-character heads of the course groups, in table order,
      and where each group ends. */
  const GroupHeads: seq<string> := ["CS", "EE", "ME", "CE", "MA", "PH", "EC", "BU"]
  const GroupEnds: seq<int> := [0, 8, 14, 19, 25, 30, 34, 38, 43]

  // One lemma per group keeps each comparison of codes small.
  lemma CodesWithinCs(i: int, j: int)
    requires 0 <= i < j < 8
    ensures SampleCourses[i].code != SampleCourses[j].code
  {
  }

  lemma CodesWithinEe(i: int, j: int)
    requires 8 <= i < j < 14
    ensures SampleCourses[i].code != SampleCourses[j].code
  {
  }

  lemma CodesWithinMe(i: int, j: int)
    requires 14 <= i < j < 19
    ensures SampleCourses[i].code != SampleCourses[j].code
  {
  }

  lemma CodesWithinCe(i: int, j: int)
    requires 19 <= i < j < 25
    ensures SampleCourses[i].code != SampleCourses[j].code
  {
  }

  lemma CodesWithinMa(i: int, j: int)
    requires 25 <= i < j < 30
    ensures SampleCourses[i].code != SampleCourses[j].code
  {
  }

  lemma CodesWithinPh(i: int, j: int)
    requires 30 <= i < j < 34
    ensures SampleCourses[i].code != SampleCourses[j].code
  {
  }

  lemma CodesWithinEc(i: int, j: int)
    requires 34 <= i < j < 38
    ensures SampleCourses[i].code != SampleCourses[j].code
  {
  }

  lemma CodesWithinBu(i: int, j: int)
    requires 38 <= i < j < 43
    ensures SampleCourses[i].code != SampleCourses[j].code
  {
  }

  lemma GroupHead(i: int)
    requires 0 <= i < 43
    ensures |SampleCourses[i].code| >= 2 && SampleCourses[i].code[..2] == GroupHeads[GroupOf(i)]
  {
    if i < 19 {
      GroupHeadFront(i);
    } else {
      GroupHeadBack(i);
    }
  }

  lemma GroupHeadFront(i: int)
    requires 0 <= i < 19
    ensures |SampleCourses[i].code| >= 2 && SampleCourses[i].code[..2] == GroupHeads[GroupOf(i)]
  {
  }

  lemma GroupHeadBack(i: int)
    requires 19 <= i < 43
    ensures |SampleCourses[i].code| >= 2 && SampleCourses[i].code[..2] == GroupHeads[GroupOf(i)]
  {
  }

  /** The group of course `i`. */
  function GroupOf(i: int): (g: int)
    requires 0 <= i < 43
    ensures 0 <= g < 8 && GroupEnds[g] <= i < GroupEnds[g + 1]
  {
    if i < 8 then 0 else if i < 14 then 1 else if i < 19 then 2 else if i < 25 then 3
    else if i < 30 then 4 else if i < 34 then 5 else if i < 38 then 6 else 7
  }

  /** No two courses share a code. */
  lemma CourseCodesDistinct(i: int, j: int)
    requires 0 <= i < j < |SampleCourses|
    ensures SampleCourses[i].code != SampleCourses[j].code
  {
    var gi, gj := GroupOf(i), GroupOf(j);
    if gi == gj {
      assert GroupEnds == [0, 8, 14, 19, 25, 30, 34, 38, 43];
      if gi == 0 {
        CodesWithinCs(i, j);
      } else if gi == 1 {
        CodesWithinEe(i, j);
      } else if gi == 2 {
        CodesWithinMe(i, j);
      } else if gi == 3 {
        CodesWithinCe(i, j);
      } else if gi == 4 {
        CodesWithinMa(i, j);
      } else if gi == 5 {
        CodesWithinPh(i, j);
      } else if gi == 6 {
        CodesWithinEc(i, j);
      } else {
        CodesWithinBu(i, j);
      }
    } else {
      GroupHead(i);
      GroupHead(j);
      assert GroupHeads[gi] != GroupHeads[gj];
    }
  }

  // ---------------------------------------------------------------------
  // Properties of the lookups
  // ---------------------------------------------------------------------

  /** A department's courses, in table order: the lookup over a longer table
      extends the lookup over its prefix by the new course exactly when it is
      in the department. */
  lemma {:induction false} CoursesInAppend(courses: seq<Course>, c: Course, department: string)
    ensures CoursesIn(courses + [c], department) ==
              CoursesIn(courses, department) + (if c.department == department then [c] else [])
    decreases |courses|
  {
    if |courses| > 0 {
      assert (courses + [c])[1..] == courses[1..] + [c];
      CoursesInAppend(courses[1..], c, department);
    }
  }

  /** A department with no course gives an empty list. */
  lemma UnknownDepartmentEmpty(department: string)
    requires forall i :: 0 <= i < |SampleCourses| ==> SampleCourses[i].department != department
    ensures GetCoursesByDepartment(department) == []
  {
    NoCourses(SampleCourses, department);
  }

  lemma {:induction false} NoCourses(courses: seq<Course>, department: string)
    requires forall i :: 0 <= i < |courses| ==> courses[i].department != department
    ensures CoursesIn(courses, department) == []
    decreases |courses|
  {
    if |courses| > 0 {
      assert forall i :: 0 <= i < |courses| - 1 ==> courses[1..][i] == courses[i + 1];
      NoCourses(courses[1..], department);
    }
  }

  /** No university has an empty domain, so an address that is not
      institutional has no university under either lookup. */
  lemma NonInstitutionalHasNoUniversity(email: string)
    requires !IsInstitutionalEmail(email)
    ensures GetUniversityByEmailDomain(email).None?
    ensures GetUniversityByEmailDomainCorrected(email).None?
  {
    InstitutionIsDomainStem(email);
  }

  /** As written, a university is found only for an institution that itself
      ends in ".edu.et": its domain must carry the suffix twice. */
  lemma AsWrittenNeedsDoubledSuffix(email: string)
    requires GetUniversityByEmailDomain(email).Some?
    ensures HasSuffix(GetInstitutionFromEmail(email), InstitutionalSuffix)
  {
    DomainsFollowAbbreviations();
  }

  /** An ordinary address of Addis Ababa University, and the same address
      with the suffix doubled. */
  const PlainAau := "student@aau.edu.et"
  const DoubledAau := "x@aau.edu.et.edu.et"

  lemma PlainAauShape()
    ensures InstitutionalAt(ToLower(PlainAau), 7)
  {
    assert ToLower(PlainAau) == PlainAau by { LowerCaseAddresses(); }
    assert AllLocal(PlainAau[..7]) by { PlainAauParts(); }
    assert AllDomain(PlainAau[8..]) by { PlainAauParts(); }
    assert |LastLabel(PlainAau[8..11])| >= 2 by { PlainAauParts(); }
  }

  lemma DoubledAauShape()
    ensures InstitutionalAt(ToLower(DoubledAau), 1)
  {
    assert ToLower(DoubledAau) == DoubledAau by { LowerCaseAddresses(); }
    assert AllLocal(DoubledAau[..1]) by { DoubledAauParts(); }
    assert AllDomain(DoubledAau[2..]) by { DoubledAauParts(); }
    assert |LastLabel(DoubledAau[2..12])| >= 2 by { DoubledAauParts(); }
  }

  lemma LowerCaseAddresses()
    ensures ToLower(PlainAau) == PlainAau && ToLower(DoubledAau) == DoubledAau
  {
  }

  lemma PlainAauParts()
    ensures |PlainAau| == 18 && PlainAau[7] == '@' && PlainAau[11..] == InstitutionalSuffix
    ensures AllLocal(PlainAau[..7]) && AllDomain(PlainAau[8..])
    ensures |LastLabel(PlainAau[8..11])| >= 2 && PlainAau[8..11] == "aau"
  {
    assert PlainAau[8..11] == "aau";
    SplitJoin(["aau"], '.');
  }

  lemma DoubledAauParts()
    ensures |DoubledAau| == 19 && DoubledAau[1] == '@' && DoubledAau[12..] == InstitutionalSuffix
    ensures AllLocal(DoubledAau[..1]) && AllDomain(DoubledAau[2..])
    ensures |LastLabel(DoubledAau[2..12])| >= 2 && DoubledAau[2..12] == "aau.edu.et"
  {
    assert DoubledAau[2..12] == "aau.edu.et";
    assert Join(["aau", "edu", "et"], '.') == "aau.edu.et";
    SplitJoin(["aau", "edu", "et"], '.');
  }

  lemma PlainAauInstitution()
    ensures IsInstitutionalEmail(PlainAau) && GetInstitutionFromEmail(PlainAau) == "aau"
  {
    PlainAauShape();
    InstitutionAt(PlainAau, 7);
    PlainAauParts();
  }

  lemma DoubledAauInstitution()
    ensures IsInstitutionalEmail(DoubledAau) && GetInstitutionFromEmail(DoubledAau) == "aau.edu.et"
  {
    DoubledAauShape();
    InstitutionAt(DoubledAau, 1);
    DoubledAauParts();
  }

  /** The as-written lookup misses an ordinary address of Addis Ababa
      University, and finds it for the address with the suffix doubled. */
  lemma AsWrittenMissesPlainAddress()
    ensures IsInstitutionalEmail(PlainAau) && GetUniversityByEmailDomain(PlainAau) == None
    ensures GetUniversityByEmailDomain(DoubledAau) == Some(AAU)
  {
    PlainAauInstitution();
    NoDomainIsAau();
    DoubledAauInstitution();
    FirstDomainIsAau();
  }

  lemma PlainAauDomain()
    ensures ToLower(PlainAau[8..]) == "aau.edu.et"
  {
    assert PlainAau[8..] == "aau.edu.et";
  }

  lemma NoDomainIsAau()
    ensures FindByDomain(EthiopianUniversities, "aau") == None
  {
    assert forall i :: 0 <= i < |EthiopianUniversities| ==> |EthiopianUniversities[i].emailDomain| >= 9;
  }

  lemma FirstDomainIsAau()
    ensures FindByDomain(EthiopianUniversities, "aau.edu.et") == Some(AAU)
  {
    assert EthiopianUniversities[0].emailDomain == "aau.edu.et";
  }

  /** The corrected lookup compares the address's lower-cased domain with
      the table. */
  lemma CorrectedMatchesDomain(email: string, k: int)
    requires InstitutionalAt(ToLower(email), k)
    ensures GetUniversityByEmailDomainCorrected(email) == FindByDomain(EthiopianUniversities, ToLower(email[k + 1..]))
  {
    InstitutionAt(email, k);
    StemNonEmpty(email, k);
    LowerDomain(email, k);
  }

  /** The corrected lookup finds Addis Ababa University for its ordinary
      address. */
  lemma CorrectedFindsPlainAddress()
    ensures GetUniversityByEmailDomainCorrected(PlainAau) == Some(AAU)
  {
    PlainAauShape();
    CorrectedMatchesDomain(PlainAau, 7);
    assert ToLower(PlainAau[8..]) == "aau.edu.et" by { PlainAauDomain(); }
    FirstDomainIsAau();
  }
}
