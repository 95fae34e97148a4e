/**
 * The S3 bucket resumes are uploaded to, seen as a map from object key to
 * content. Whether an upload succeeds is decided by the service and is
 * passed in.
 */
module ObjectStore {

  newtype byte = x: int | 0 <= x < 256

  type Bytes = seq<byte>

  /** How `upload_fileobj` ends: stored, NoCredentialsError, or any other exception. */
  datatype UploadResult = Uploaded | NoCredentials | UploadError

  class Bucket {
    const name: string
    var objects: map<string, Bytes>

    constructor (name: string, objects: map<string, Bytes>)
      ensures this.name == name && this.objects == objects
    {
      this.name := name;
      this.objects := objects;
    }

    /**
     * `upload_fileobj(file, bucket, key)`: a successful upload stores the
     * content under the key, replacing whatever was there; a failed one
     * stores nothing.
     */
    method UploadFileObj(content: Bytes, key: string, result: UploadResult)
      modifies this
      ensures objects == if result.Uploaded? then old(objects)[key := content] else old(objects)
    {
      if result.Uploaded? {
        objects := objects[key := content];
      }
    }
  }
}
