/** One record of the static acupuncture dataset (`ACUPUNCTURE_DATA`): every
    attribute is a string. */
module Points {

  datatype PointRecord = PointRecord(
    meridianSystem: string,         // 'Meridian System'
    pointCode: string,              // 'Point Code'
    englishName: string,            // 'English Name'
    chineseName: string,            // 'Chinese Name'
    pinyin: string,                 // 'Pinyin'
    pointCategory: string,          // 'Point Category'
    indications: string,            // 'Indications'
    symptoms: string,               // 'Symptoms'
    diseases: string,               // 'Diseases'
    functions: string,              // 'Functions'
    locationCun: string,            // 'Location (Cun)'
    anatomicalLocation: string,     // 'Anatomical Location'
    generalLocation: string,        // 'General Location'
    contraindications: string,      // 'Contraindications'
    needlingDepth: string,          // 'Needling Depth'
    needlingMethod: string,         // 'Needling Method'
    stimulationMethod: string,      // 'Stimulation Method'
    electricalStimulation: string   // 'Electrical Stimulation'
  )

  /** The two searchable attributes, one per tab. */
  datatype Field = Symptoms | Diseases

  function FieldValue(p: PointRecord, f: Field): string {
    match f
    case Symptoms => p.symptoms
    case Diseases => p.diseases
  }
}
